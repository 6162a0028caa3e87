/** The cache in front of it (`AgGenesisCertSource::get`), as a timed transition system: any number
    of callers share one mutex-guarded cell, hold the mutex while fetching, and may be cancelled
    at either of their two await points. Time is in milliseconds and never runs backwards. */
module CertificateCache {
  import opened Basics
  import opened CertificateWire

  const FAILURE_RETRY_INTERVAL: nat := 1000

  type TaskId = nat

  datatype Config = Config(configured: bool, timeout: nat, refresh: nat, codec: Codec)

  datatype Cached = Cached(result: Evidence, expires: Option<nat>)

  datatype Pc =
    | WaitLock(deadline: nat)
    | Check(deadline: nat)
    | Fetching(deadline: nat, since: nat)
    | Storing(since: nat, reply: Option<Reply>)
    | Returned(result: Evidence, at: nat)
    | Gone

  /** A completed fetch: whose it was, when it started, when its result was stored, and what the
      upstream replied, or nothing when the deadline passed first. */
  datatype Completed = Completed(who: TaskId, since: nat, stored: nat, reply: Option<Reply>)

  /** `called` and `log` remember when each caller came, and all completed fetches. */
  datatype State = State(
    tasks: map<TaskId, Pc>,
    holder: Option<TaskId>,
    cache: Option<Cached>,
    called: map<TaskId, nat>,
    log: seq<Completed>,
    now: nat)

  datatype Action =
    | Call(t: TaskId)
    | GiveUp(t: TaskId)
    | Lock(t: TaskId)
    | Look(t: TaskId)
    | Answer(t: TaskId, reply: Reply)
    | Expire(t: TaskId)
    | Store(t: TaskId)
    | Cancel(t: TaskId)
    | Tick(ms: nat)

  const Init := State(map[], None, None, map[], [], 0)

  function ResultOf(cfg: Config, reply: Option<Reply>): Evidence {
    match reply
    case None => Err(Timeout)
    case Some(r) => FetchOf(cfg.codec, r)
  }

  /** How long a result may be served: forever, for the refresh interval, or for a second. */
  function Ttl(cfg: Config, result: Evidence): Option<nat> {
    match result
    case Ok(Some(_)) => None
    case Ok(None) => Some(cfg.refresh)
    case Err(_) => Some(FAILURE_RETRY_INTERVAL)
  }

  function Expiry(cfg: Config, result: Evidence, stored: nat): Option<nat> {
    match Ttl(cfg, result)
    case None => None
    case Some(ttl) => Some(stored + ttl)
  }

  predicate Live(c: Cached, now: nat) {
    c.expires.None? || now < c.expires.value
  }

  predicate Enabled(s: State, a: Action) {
    match a
    case Call(t) => t !in s.tasks
    case GiveUp(t) => t in s.tasks && s.tasks[t].WaitLock? && s.tasks[t].deadline <= s.now
    case Lock(t) => t in s.tasks && s.tasks[t].WaitLock? && s.holder.None?
    case Look(t) => t in s.tasks && s.tasks[t].Check?
    case Answer(t, _) => t in s.tasks && s.tasks[t].Fetching?
    case Expire(t) => t in s.tasks && s.tasks[t].Fetching? && s.tasks[t].deadline <= s.now
    case Store(t) => t in s.tasks && s.tasks[t].Storing?
    case Cancel(t) => t in s.tasks && (s.tasks[t].WaitLock? || s.tasks[t].Fetching?)
    case Tick(_) => true
  }

  function Apply(cfg: Config, s: State, a: Action): State
    requires Enabled(s, a)
  {
    match a
    case Call(t) =>
      s.(tasks := s.tasks[t := if cfg.configured then WaitLock(s.now + cfg.timeout)
                               else Returned(Err(NotConfigured), s.now)],
         called := s.called[t := s.now])
    case GiveUp(t) => s.(tasks := s.tasks[t := Returned(Err(Timeout), s.now)])
    case Lock(t) => s.(tasks := s.tasks[t := Check(s.tasks[t].deadline)], holder := Some(t))
    case Look(t) =>
      if s.cache.Some? && Live(s.cache.value, s.now)
      then s.(tasks := s.tasks[t := Returned(s.cache.value.result, s.now)], holder := None)
      else s.(tasks := s.tasks[t := Fetching(s.tasks[t].deadline, s.now)])
    case Answer(t, reply) => s.(tasks := s.tasks[t := Storing(s.tasks[t].since, Some(reply))])
    case Expire(t) => s.(tasks := s.tasks[t := Storing(s.tasks[t].since, None)])
    case Store(t) =>
      var Storing(since, reply) := s.tasks[t];
      var result := ResultOf(cfg, reply);
      s.(tasks := s.tasks[t := Returned(result, s.now)], holder := None,
         cache := Some(Cached(result, Expiry(cfg, result, s.now))),
         log := s.log + [Completed(t, since, s.now, reply)])
    case Cancel(t) =>
      s.(tasks := s.tasks[t := Gone], holder := if s.tasks[t].Fetching? then None else s.holder)
    case Tick(ms) => s.(now := s.now + ms)
  }

  ghost predicate Run(cfg: Config, s: State, acts: seq<Action>, s': State)
    decreases |acts|
  {
    if acts == [] then s == s'
    else Enabled(s, acts[0]) && Run(cfg, Apply(cfg, s, acts[0]), acts[1..], s')
  }

  ghost predicate Reachable(cfg: Config, s: State) {
    exists acts :: Run(cfg, Init, acts, s)
  }

  // ---- The invariant ------------------------------------------------------------------------

  predicate HoldsLock(pc: Pc) {
    pc.Check? || pc.Fetching? || pc.Storing?
  }

  ghost predicate LockInv(s: State) {
    && (s.holder.Some? ==> s.holder.value in s.tasks && HoldsLock(s.tasks[s.holder.value]))
    && (forall t :: t in s.tasks && HoldsLock(s.tasks[t]) ==> s.holder == Some(t))
  }

  /** The cell holds the latest completed fetch. */
  ghost predicate CacheInv(cfg: Config, s: State) {
    if s.log == [] then s.cache.None?
    else
      var last := s.log[|s.log| - 1];
      var result := ResultOf(cfg, last.reply);
      s.cache == Some(Cached(result, Expiry(cfg, result, last.stored)))
  }

  /** A fetch started at `since` was due: the fetch before it had a time to live, and it was over. */
  ghost predicate Due(cfg: Config, prior: Completed, since: nat) {
    var ttl := Ttl(cfg, ResultOf(cfg, prior.reply));
    ttl.Some? && prior.stored + ttl.value <= since
  }

  ghost predicate LogInv(cfg: Config, s: State) {
    && (forall k :: 0 <= k < |s.log| ==> s.log[k].since <= s.log[k].stored <= s.now)
    && (forall j, k :: 0 <= j < k < |s.log| ==> Due(cfg, s.log[j], s.log[k].since))
  }

  ghost predicate FlightInv(cfg: Config, s: State) {
    forall t :: t in s.tasks && (s.tasks[t].Fetching? || s.tasks[t].Storing?) ==>
      s.tasks[t].since <= s.now && forall k :: 0 <= k < |s.log| ==> Due(cfg, s.log[k], s.tasks[t].since)
  }

  /** The answer came from completed fetch `k`: the caller's own, or one still within its time to
      live. */
  ghost predicate From(cfg: Config, s: State, result: Evidence, at: nat, k: nat) {
    && k < |s.log|
    && ResultOf(cfg, s.log[k].reply) == result
    && s.log[k].stored <= at
    && (at == s.log[k].stored
        || Ttl(cfg, result).None? || at < s.log[k].stored + Ttl(cfg, result).value)
  }

  /** Why a caller got what it got: the source is not configured, or the caller waited for the lock
      until its deadline, or a completed fetch said so. */
  ghost predicate Explained(cfg: Config, s: State, t: TaskId, result: Evidence, at: nat) {
    && t in s.called && s.called[t] <= at <= s.now
    && (|| (result == Err(NotConfigured) && !cfg.configured)
        || (result == Err(Timeout) && s.called[t] + cfg.timeout <= at)
        || exists k :: From(cfg, s, result, at, k))
  }

  ghost predicate AnswerInv(cfg: Config, s: State) {
    forall t :: t in s.tasks && s.tasks[t].Returned? ==> Explained(cfg, s, t, s.tasks[t].result, s.tasks[t].at)
  }

  /** A deadline runs from the call, and only a configured source has callers under way. */
  ghost predicate DeadlineInv(cfg: Config, s: State) {
    && (forall t :: t in s.tasks ==> t in s.called && s.called[t] <= s.now)
    && (forall t :: t in s.tasks && (s.tasks[t].WaitLock? || s.tasks[t].Check? || s.tasks[t].Fetching?) ==>
          cfg.configured && s.tasks[t].deadline == s.called[t] + cfg.timeout)
  }

  /** A fetch without a reply is one whose caller ran out of time. */
  ghost predicate TimeoutInv(cfg: Config, s: State) {
    && (forall t :: t in s.tasks && s.tasks[t].Storing? && s.tasks[t].reply.None? ==>
          t in s.called && s.called[t] + cfg.timeout <= s.now)
    && (forall k :: 0 <= k < |s.log| && s.log[k].reply.None? ==>
          s.log[k].who in s.tasks && s.log[k].who in s.called
          && s.called[s.log[k].who] + cfg.timeout <= s.log[k].stored)
  }

  lemma StepKeepsTimeouts(cfg: Config, s: State, a: Action)
    requires DeadlineInv(cfg, s) && TimeoutInv(cfg, s) && Enabled(s, a)
    ensures TimeoutInv(cfg, Apply(cfg, s, a))
  {
  }

  ghost predicate CoreInv(cfg: Config, s: State) {
    LockInv(s) && DeadlineInv(cfg, s) && CacheInv(cfg, s) && LogInv(cfg, s) && FlightInv(cfg, s) && AnswerInv(cfg, s)
  }

  ghost predicate Inv(cfg: Config, s: State) {
    CoreInv(cfg, s) && TimeoutInv(cfg, s)
  }

  lemma ExplanationSurvives(cfg: Config, s: State, s': State, t: TaskId, result: Evidence, at: nat)
    requires |s.log| <= |s'.log| && s'.log[..|s.log|] == s.log && s.now <= s'.now
    requires t in s.called && t in s'.called && s'.called[t] == s.called[t]
    requires Explained(cfg, s, t, result, at)
    ensures Explained(cfg, s', t, result, at)
  {
    if k: nat :| From(cfg, s, result, at, k) {
      assert s'.log[k] == s'.log[..|s.log|][k];
      assert From(cfg, s', result, at, k);
    }
  }

  lemma AnswersSurvive(cfg: Config, s: State, s': State, t: TaskId)
    requires AnswerInv(cfg, s) && s.now <= s'.now
    requires |s.log| <= |s'.log| && s'.log[..|s.log|] == s.log
    requires forall u :: u in s'.tasks && u != t ==> u in s.tasks && s'.tasks[u] == s.tasks[u]
    requires forall u :: u in s.called && u != t ==> u in s'.called && s'.called[u] == s.called[u]
    requires t in s'.tasks && s'.tasks[t].Returned? ==> Explained(cfg, s', t, s'.tasks[t].result, s'.tasks[t].at)
    ensures AnswerInv(cfg, s')
  {
    forall u | u in s'.tasks && s'.tasks[u].Returned?
      ensures Explained(cfg, s', u, s'.tasks[u].result, s'.tasks[u].at)
    {
      if u != t {
        ExplanationSurvives(cfg, s, s', u, s.tasks[u].result, s.tasks[u].at);
      }
    }
  }

  lemma LookKeepsInv(cfg: Config, s: State, t: TaskId)
    requires CoreInv(cfg, s) && Enabled(s, Look(t))
    ensures CoreInv(cfg, Apply(cfg, s, Look(t)))
  {
    var s' := Apply(cfg, s, Look(t));
    assert s'.log[..|s.log|] == s.log;
    if s.log != [] {
      var last := |s.log| - 1;
      if Live(s.cache.value, s.now) {
        assert From(cfg, s', s.cache.value.result, s.now, last);
      } else {
        assert Due(cfg, s.log[last], s.now);
        forall k | 0 <= k < |s.log| ensures Due(cfg, s.log[k], s.now) {
          if k < last {
            assert Due(cfg, s.log[k], s.log[last].since);
          }
        }
      }
    }
    AnswersSurvive(cfg, s, s', t);
  }

  lemma StoreKeepsInv(cfg: Config, s: State, t: TaskId)
    requires CoreInv(cfg, s) && Enabled(s, Store(t))
    ensures CoreInv(cfg, Apply(cfg, s, Store(t)))
  {
    var s' := Apply(cfg, s, Store(t));
    var n := |s.log|;
    assert s'.log[..n] == s.log;
    assert s.holder == Some(t);
    assert From(cfg, s', s'.tasks[t].result, s.now, n);
    AnswersSurvive(cfg, s, s', t);
  }

  lemma OtherStepKeepsAnswers(cfg: Config, s: State, a: Action)
    requires CoreInv(cfg, s) && Enabled(s, a) && !a.Look? && !a.Store?
    ensures AnswerInv(cfg, Apply(cfg, s, a))
  {
    var s' := Apply(cfg, s, a);
    assert s'.log[..|s.log|] == s.log;
    if a.Tick? {
      forall u | u in s'.tasks && s'.tasks[u].Returned?
        ensures Explained(cfg, s', u, s'.tasks[u].result, s'.tasks[u].at)
      {
        ExplanationSurvives(cfg, s, s', u, s.tasks[u].result, s.tasks[u].at);
      }
    } else {
      AnswersSurvive(cfg, s, s', a.t);
    }
  }

  lemma OtherStepKeepsLock(cfg: Config, s: State, a: Action)
    requires LockInv(s) && DeadlineInv(cfg, s) && Enabled(s, a) && !a.Look? && !a.Store?
    ensures LockInv(Apply(cfg, s, a)) && DeadlineInv(cfg, Apply(cfg, s, a))
  {
  }

  lemma OtherStepKeepsFetches(cfg: Config, s: State, a: Action)
    requires CacheInv(cfg, s) && LogInv(cfg, s) && FlightInv(cfg, s) && Enabled(s, a) && !a.Look? && !a.Store?
    ensures CacheInv(cfg, Apply(cfg, s, a)) && LogInv(cfg, Apply(cfg, s, a)) && FlightInv(cfg, Apply(cfg, s, a))
  {
  }

  lemma OtherStepKeepsInv(cfg: Config, s: State, a: Action)
    requires CoreInv(cfg, s) && Enabled(s, a) && !a.Look? && !a.Store?
    ensures CoreInv(cfg, Apply(cfg, s, a))
  {
    OtherStepKeepsAnswers(cfg, s, a);
    OtherStepKeepsLock(cfg, s, a);
    OtherStepKeepsFetches(cfg, s, a);
  }

  /** Every step of every caller keeps the invariant. */
  lemma StepKeepsInv(cfg: Config, s: State, a: Action)
    requires Inv(cfg, s) && Enabled(s, a)
    ensures Inv(cfg, Apply(cfg, s, a))
  {
    StepKeepsTimeouts(cfg, s, a);
    match a {
      case Look(t) => LookKeepsInv(cfg, s, t);
      case Store(t) => StoreKeepsInv(cfg, s, t);
      case _ => OtherStepKeepsInv(cfg, s, a);
    }
  }

  lemma {:induction false} RunKeepsInv(cfg: Config, s: State, acts: seq<Action>, s': State)
    requires Inv(cfg, s) && Run(cfg, s, acts, s')
    ensures Inv(cfg, s')
    decreases |acts|
  {
    if acts != [] {
      StepKeepsInv(cfg, s, acts[0]);
      RunKeepsInv(cfg, Apply(cfg, s, acts[0]), acts[1..], s');
    }
  }

  lemma ReachableInv(cfg: Config, s: State)
    requires Reachable(cfg, s)
    ensures Inv(cfg, s)
  {
    var acts :| Run(cfg, Init, acts, s);
    RunKeepsInv(cfg, Init, acts, s);
  }

  // ---- What every run guarantees ----------------------------------------------------------------

  /** At most one upstream fetch is in flight. */
  lemma FetchesAreCoalesced(cfg: Config, s: State, t: TaskId, u: TaskId)
    requires Reachable(cfg, s)
    requires t in s.tasks && s.tasks[t].Fetching? && u in s.tasks && s.tasks[u].Fetching?
    ensures t == u
  {
    ReachableInv(cfg, s);
  }

  ghost predicate HasCertificate(s: State, c: Certificate) {
    s.cache.Some? && s.cache.value.result == Ok(Some(c))
  }

  /** A cached certificate is never replaced and the upstream is never asked again: the cell and
      the list of completed fetches stay as they are, and no fetch is in flight. */
  lemma {:induction false} CertificateIsForever(cfg: Config, s: State, acts: seq<Action>, s': State, c: Certificate)
    requires Inv(cfg, s) && Run(cfg, s, acts, s') && HasCertificate(s, c)
    ensures s'.cache == s.cache && s'.log == s.log && HasCertificate(s', c)
    ensures forall t :: t in s'.tasks ==> !s'.tasks[t].Fetching? && !s'.tasks[t].Storing?
    decreases |acts|
  {
    NoFetchAfterCertificate(cfg, s, c);
    if acts != [] {
      StepKeepsInv(cfg, s, acts[0]);
      assert s.cache.value.expires == None;
      CertificateIsForever(cfg, Apply(cfg, s, acts[0]), acts[1..], s', c);
    }
  }

  lemma NoFetchAfterCertificate(cfg: Config, s: State, c: Certificate)
    requires Inv(cfg, s) && HasCertificate(s, c)
    ensures s.cache.value.expires == None
    ensures forall t :: t in s.tasks ==> !s.tasks[t].Fetching? && !s.tasks[t].Storing?
  {
    var last := s.log[|s.log| - 1];
    assert Ttl(cfg, ResultOf(cfg, last.reply)).None?;
    forall t | t in s.tasks ensures !s.tasks[t].Fetching? && !s.tasks[t].Storing? {
      if s.tasks[t].Fetching? || s.tasks[t].Storing? {
        assert false;
      }
    }
  }

  /** Every "no certificate" traces to an upstream that said null, in full, and whose answer was
      still within its refresh interval when it was given (or was the caller's own fetch). No
      failure and no timeout becomes one. */
  lemma NullTracesToUpstream(cfg: Config, s: State, t: TaskId)
    requires Reachable(cfg, s)
    requires t in s.tasks && s.tasks[t].Returned? && s.tasks[t].result == Ok(None)
    ensures exists k :: 0 <= k < |s.log| && s.log[k].reply.Some? && SaysNull(cfg.codec, s.log[k].reply.value)
              && s.log[k].stored <= s.tasks[t].at
              && (s.tasks[t].at == s.log[k].stored || s.tasks[t].at < s.log[k].stored + cfg.refresh)
  {
    ReachableInv(cfg, s);
    var k: nat :| From(cfg, s, s.tasks[t].result, s.tasks[t].at, k);
    FetchNullExactly(cfg.codec, s.log[k].reply.value);
  }

  /** Every certificate handed out is one that the upstream sent. */
  lemma CertificateTracesToUpstream(cfg: Config, s: State, t: TaskId, c: Certificate)
    requires Reachable(cfg, s)
    requires t in s.tasks && s.tasks[t].Returned? && s.tasks[t].result == Ok(Some(c))
    ensures exists k :: 0 <= k < |s.log| && s.log[k].reply.Some?
              && FetchOf(cfg.codec, s.log[k].reply.value) == Ok(Some(c))
              && s.log[k].stored <= s.tasks[t].at
  {
    ReachableInv(cfg, s);
    var k: nat :| From(cfg, s, s.tasks[t].result, s.tasks[t].at, k);
    assert s.log[k].reply.Some?;
  }

  /** Every answer has a reason. It is `NotConfigured` of a source that is not; or a timeout of a
      caller that got no lock within its time; or exactly what one completed fetch found: the
      caller's own, or one that, when the answer was given, was a certificate, a null not older than
      the refresh interval, or a failure not older than the retry interval. */
  lemma AnswersAreExplained(cfg: Config, s: State, t: TaskId)
    requires Reachable(cfg, s) && t in s.tasks && s.tasks[t].Returned?
    ensures var Returned(result, at) := s.tasks[t];
            || (result == Err(NotConfigured) && !cfg.configured)
            || (result == Err(Timeout) && t in s.called && s.called[t] + cfg.timeout <= at)
            || exists k :: 0 <= k < |s.log| && ResultOf(cfg, s.log[k].reply) == result && s.log[k].stored <= at
                 && (|| at == s.log[k].stored
                     || (result.Ok? && result.cert.Some?)
                     || (result == Ok(None) && at < s.log[k].stored + cfg.refresh)
                     || (result.Err? && at < s.log[k].stored + 1000))
  {
    ReachableInv(cfg, s);
    var Returned(result, at) := s.tasks[t];
    assert Explained(cfg, s, t, result, at);
    if k: nat :| From(cfg, s, result, at, k) {
      assert ResultOf(cfg, s.log[k].reply) == result;
    }
  }

  /** A fetch is recorded without a reply only when its caller's time was up. */
  lemma TimeoutsAreReal(cfg: Config, s: State, k: nat)
    requires Reachable(cfg, s) && k < |s.log| && s.log[k].reply.None?
    ensures s.log[k].who in s.called && s.called[s.log[k].who] + cfg.timeout <= s.log[k].stored
  {
    ReachableInv(cfg, s);
  }

  /** The steps of one caller, and the passing of time. */
  predicate OwnStep(a: Action, t: TaskId) {
    a.Tick? || a.t == t
  }

  lemma RunTwo(cfg: Config, s: State, a: Action, b: Action)
    requires Enabled(s, a) && Enabled(Apply(cfg, s, a), b)
    ensures Run(cfg, s, [a, b], Apply(cfg, Apply(cfg, s, a), b))
  {
    var s1 := Apply(cfg, s, a);
    assert [a, b][1..] == [b] && [b][1..] == [];
    assert Run(cfg, Apply(cfg, s1, b), [], Apply(cfg, s1, b));
    assert Run(cfg, s1, [b], Apply(cfg, s1, b));
  }

  /** A caller that waits for the lock comes back in time on its own, whatever the others do: once
      its deadline passes it returns a timeout. So does one whose fetch does not come back, which
      first stores the timeout for the others. */
  lemma NobodyWaitsBeyondDeadline(cfg: Config, s: State, t: TaskId)
    requires Reachable(cfg, s) && t in s.tasks && (s.tasks[t].WaitLock? || s.tasks[t].Fetching?)
    ensures exists acts, s' :: Run(cfg, s, acts, s') && (forall a :: a in acts ==> OwnStep(a, t))
              && t in s'.tasks && s'.tasks[t].Returned? && s'.tasks[t].result == Err(Timeout)
              && t in s.called && (s'.tasks[t].at == s.now || s'.tasks[t].at == s.called[t] + cfg.timeout)
  {
    ReachableInv(cfg, s);
    var ms := if s.now < s.tasks[t].deadline then s.tasks[t].deadline - s.now else 0;
    var s1 := Apply(cfg, s, Tick(ms));
    if s.tasks[t].WaitLock? {
      RunTwo(cfg, s, Tick(ms), GiveUp(t));
      var s2 := Apply(cfg, s1, GiveUp(t));
      assert forall a :: a in [Tick(ms), GiveUp(t)] ==> OwnStep(a, t);
      assert s2.tasks[t] == Returned(Err(Timeout), s1.now);
    } else {
      RunTwo(cfg, s1, Expire(t), Store(t));
      var s3 := Apply(cfg, Apply(cfg, s1, Expire(t)), Store(t));
      var acts := [Tick(ms)] + [Expire(t), Store(t)];
      assert acts[1..] == [Expire(t), Store(t)];
      assert Run(cfg, s, acts, s3);
      assert forall a :: a in acts ==> OwnStep(a, t);
      assert s3.tasks[t] == Returned(Err(Timeout), s1.now);
    }
  }

  /** A caller that is dropped while it fetches releases the lock and leaves the cell as it was. */
  lemma DroppedFetchReleasesLock(cfg: Config, s: State, t: TaskId)
    requires Reachable(cfg, s) && t in s.tasks && s.tasks[t].Fetching?
    ensures Run(cfg, s, [Cancel(t)], s.(tasks := s.tasks[t := Gone], holder := None))
  {
    ReachableInv(cfg, s);
    assert [Cancel(t)][1..] == [];
  }

  /** With the lock free and nothing live in the cell, a waiting caller can get any reply through:
      it locks, looks, fetches, and returns what the reply decodes to, which is now in the cell. */
  lemma ReplyGetsThrough(cfg: Config, s: State, t: TaskId, reply: Reply)
    requires t in s.tasks && s.tasks[t].WaitLock? && s.holder.None?
    requires s.cache.Some? ==> s.cache.value.expires.Some? && s.cache.value.expires.value <= s.now
    ensures exists s' :: Run(cfg, s, [Lock(t), Look(t)] + [Answer(t, reply), Store(t)], s')
              && t in s'.tasks && s'.tasks[t] == Returned(FetchOf(cfg.codec, reply), s.now)
              && s'.cache.Some? && s'.cache.value.result == FetchOf(cfg.codec, reply) && s'.holder.None?
  {
    var s1 := Apply(cfg, s, Lock(t));
    var s2 := Apply(cfg, s1, Look(t));
    RunTwo(cfg, s, Lock(t), Look(t));
    var s3 := Apply(cfg, s2, Answer(t, reply));
    var s4 := Apply(cfg, s3, Store(t));
    RunTwo(cfg, s2, Answer(t, reply), Store(t));
    RunConcat(cfg, s, [Lock(t), Look(t)], s2, [Answer(t, reply), Store(t)], s4);
  }

  lemma {:induction false} RunConcat(cfg: Config, s: State, a: seq<Action>, m: State, b: seq<Action>, s': State)
    requires Run(cfg, s, a, m) && Run(cfg, m, b, s')
    ensures Run(cfg, s, a + b, s')
    decreases |a|
  {
    if a == [] {
      assert a + b == b;
    } else {
      RunConcat(cfg, Apply(cfg, s, a[0]), a[1..], m, b, s');
      assert (a + b)[1..] == a[1..] + b;
    }
  }

  /** What a caller with the lock finds: the latest completed fetch answers it while that is a
      certificate, a null within the refresh interval, or a failure within the retry interval;
      otherwise it fetches. */
  lemma LookIsExact(cfg: Config, s: State, t: TaskId, s': State)
    requires Reachable(cfg, s) && Run(cfg, s, [Look(t)], s')
    ensures t in s'.tasks
    ensures if s.log == [] then s'.tasks[t].Fetching?
            else
              var last := s.log[|s.log| - 1];
              var result := ResultOf(cfg, last.reply);
              if || (result.Ok? && result.cert.Some?)
                 || (result == Ok(None) && s.now < last.stored + cfg.refresh)
                 || (result.Err? && s.now < last.stored + 1000)
              then s'.tasks[t] == Returned(result, s.now)
              else s'.tasks[t].Fetching?
  {
    ReachableInv(cfg, s);
    assert [Look(t)][1..] == [];
  }

  lemma {:induction false} ReturnedStays(cfg: Config, s: State, acts: seq<Action>, s': State, t: TaskId)
    requires Run(cfg, s, acts, s') && t in s.tasks && s.tasks[t].Returned?
    ensures t in s'.tasks && s'.tasks[t] == s.tasks[t]
    decreases |acts|
  {
    if acts != [] {
      ReturnedStays(cfg, Apply(cfg, s, acts[0]), acts[1..], s', t);
    }
  }

  /** Once the certificate is cached, whoever gets the lock and looks returns it. */
  lemma {:induction false} CachedCertificateIsReturned(cfg: Config, s: State, acts: seq<Action>, s': State,
                                                       c: Certificate, t: TaskId)
    requires Inv(cfg, s) && Run(cfg, s, acts, s') && HasCertificate(s, c) && Look(t) in acts
    ensures t in s'.tasks && s'.tasks[t].Returned? && s'.tasks[t].result == Ok(Some(c))
    decreases |acts|
  {
    var next := Apply(cfg, s, acts[0]);
    StepKeepsInv(cfg, s, acts[0]);
    NoFetchAfterCertificate(cfg, s, c);
    if acts[0] == Look(t) {
      ReturnedStays(cfg, next, acts[1..], s', t);
    } else {
      CachedCertificateIsReturned(cfg, next, acts[1..], s', c, t);
    }
  }

  ghost predicate Carries(s: State, t: TaskId, reply: Option<Reply>, result: Evidence) {
    t in s.tasks && match s.tasks[t]
    case Storing(_, r) => r == reply
    case Returned(r, _) => r == result
    case _ => false
  }

  lemma {:induction false} FetchIsCarried(cfg: Config, s: State, acts: seq<Action>, s': State,
                                          t: TaskId, reply: Option<Reply>)
    requires Run(cfg, s, acts, s') && Carries(s, t, reply, ResultOf(cfg, reply))
    ensures Carries(s', t, reply, ResultOf(cfg, reply))
    decreases |acts|
  {
    if acts != [] {
      assert Carries(Apply(cfg, s, acts[0]), t, reply, ResultOf(cfg, reply));
      FetchIsCarried(cfg, Apply(cfg, s, acts[0]), acts[1..], s', t, reply);
    }
  }

  /** A caller that fetches returns what its own fetch found: the decoded reply, or a timeout when
      its deadline passed first. */
  lemma OwnFetchDecides(cfg: Config, s: State, a: Action, acts: seq<Action>, s': State)
    requires Run(cfg, s, [a] + acts, s') && (a.Answer? || a.Expire?)
    requires a.t in s'.tasks && s'.tasks[a.t].Returned?
    ensures s'.tasks[a.t].result == if a.Answer? then FetchOf(cfg.codec, a.reply) else Err(Timeout)
  {
    var reply := if a.Answer? then Some(a.reply) else None;
    assert ([a] + acts)[0] == a && ([a] + acts)[1..] == acts;
    FetchIsCarried(cfg, Apply(cfg, s, a), acts, s', a.t, reply);
  }

  /** Two completed fetches are separated by the refresh interval after a null, by the retry interval
      after a failure; and none follows one that found the certificate. */
  lemma FetchesAreSpaced(cfg: Config, s: State, j: nat, k: nat)
    requires Reachable(cfg, s) && j < k < |s.log|
    ensures var result := ResultOf(cfg, s.log[j].reply);
            && (result == Ok(None) || result.Err?)
            && s.log[j].stored + (if result.Err? then 1000 else cfg.refresh) <= s.log[k].since <= s.log[k].stored
  {
    ReachableInv(cfg, s);
    assert Due(cfg, s.log[j], s.log[k].since);
  }
}
