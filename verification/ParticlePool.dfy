/** The particle pool of the flow scene (site/js/scene.js, `spawnCube`, `freeCube`,
    `recycleParticlesOn`, `arrive` and the cube loop of `stepSim`): a fixed array of reusable
    objects whose first `cubeCount` are live, walked backwards while particles are freed by
    swapping and new ones are spawned at the end. */
module ParticlePool {
  import opened Basics

  const MAX_CUBES: nat := 400
  const MAX_RELAY_DEPTH: nat := 4

  /** What the loop reads of an edge; `particle` is unset on edges that carry none. */
  datatype EdgeView = EdgeView(id: nat, speed: real, length: real, particle: bool)

  /** An edge starts with length 1 and is never given one below 0.01. */
  type Edge = e: EdgeView | e.length >= 0.01 witness EdgeView(0, 0.0, 1.0, false)

  /** An out-edge of the node where a particle arrives: whether it is going away, relays arrivals,
      is switched on, and is conditional; how many particles an arrival is worth on it; and what
      the random choices of this arrival are, a coin and a spin. */
  datatype Out = Out(edge: Edge, leaving: bool, relay: bool, on: bool, conditional: bool, count: int,
                     coin: bool, spin: real, spinRate: real)

  datatype Node = Node(id: nat, leaving: bool, buffered: bool, outs: seq<Out>)

  /** What an arriving particle meets: the node at the end of its edge, if there is one, and whether
      the edge carries data and is switched on. */
  datatype Arrival = Arrival(to: Option<Node>, data: bool, on: bool)

  /** What a live object holds. */
  datatype Particle = Particle(edge: Edge, t: real, depth: nat, spin: real, spinRate: real)

  /** The burst an edge still owes, and the fill of a node's buffer. */
  datatype Emitter = Emitter(left: int, next: real, depth: nat)
  datatype Buffer = Buffer(count: nat, firstAt: real)

  /** By edge and by node; what is missing is as it was created. */
  datatype Stores = Stores(emitters: map<nat, Emitter>, buffers: map<nat, Buffer>)

  function EmitterOf(st: Stores, id: nat): Emitter {
    if id in st.emitters then st.emitters[id] else Emitter(0, 0.0, 0)
  }

  function BufferOf(st: Stores, id: nat): Buffer {
    if id in st.buffers then st.buffers[id] else Buffer(0, 0.0)
  }

  // ---- What an arrival does ---------------------------------------------------------

  predicate IsBuffered(a: Arrival) {
    a.to.Some? && !a.to.value.leaving && a.to.value.buffered && a.data
  }

  predicate IsRelayed(a: Arrival, depth: nat) {
    a.to.Some? && !a.to.value.leaving && !IsBuffered(a) && depth < MAX_RELAY_DEPTH
  }

  predicate Takes(out: Out) {
    !out.leaving && out.relay && out.on && !(out.conditional && out.coin)
  }

  /** A counted relay charges its emitter; the others spawn at once. */
  predicate Counted(out: Out) {
    out.count > 1
  }

  /** The new particles of the out-edges while `count` are live: one for each uncounted one that
      takes the arrival and carries particles, until the pool is full. */
  function Born(count: nat, depth: nat, outs: seq<Out>): (r: seq<Particle>)
    ensures count <= MAX_CUBES ==> count + |r| <= MAX_CUBES
  {
    if outs == [] then []
    else
      var n := |outs| - 1;
      var before := Born(count, depth, outs[..n]);
      if Takes(outs[n]) && !Counted(outs[n]) && outs[n].edge.particle && count + |before| < MAX_CUBES
      then before + [Particle(outs[n].edge, 0.0, depth, outs[n].spin, outs[n].spinRate)]
      else before
  }

  /** What an arrival of a particle at `depth` spawns. */
  function Relayed(count: nat, depth: nat, a: Arrival): (r: seq<Particle>)
    ensures count <= MAX_CUBES ==> count + |r| <= MAX_CUBES
  {
    if IsRelayed(a, depth) then Born(count, depth + 1, a.to.value.outs) else []
  }

  /** What one more out-edge adds, in plain terms: nothing if it is going away, does not relay, is
      off, or is conditional and the coin says no; otherwise a particle at its start, if it counts at
      most one, carries particles and there is room. */
  lemma OneMoreOutSpawns(count: nat, depth: nat, outs: seq<Out>, out: Out)
    ensures Born(count, depth, outs + [out]) == Born(count, depth, outs) +
              if !out.leaving && out.relay && out.on && (out.conditional ==> !out.coin) && out.count <= 1
                 && out.edge.particle && count + |Born(count, depth, outs)| < 400
              then [Particle(out.edge, 0.0, depth, out.spin, out.spinRate)] else []
  {
    assert (outs + [out])[..|outs|] == outs;
  }

  /** And if it counts more than one, its emitter owes that many more, at this depth, at once if it
      owed none; other emitters and the buffers stay. */
  lemma OneMoreOutCharges(st: Stores, depth: nat, now: real, outs: seq<Out>, out: Out, id: nat)
    ensures var before, after := Charged(st, depth, now, outs), Charged(st, depth, now, outs + [out]);
            && after.buffers == before.buffers
            && EmitterOf(after, id) ==
               if !out.leaving && out.relay && out.on && (out.conditional ==> !out.coin) && out.count > 1
                  && id == out.edge.id
               then Emitter(EmitterOf(before, id).left + out.count,
                            if EmitterOf(before, id).left <= 0 then now else EmitterOf(before, id).next, depth)
               else EmitterOf(before, id)
  {
    assert (outs + [out])[..|outs|] == outs;
  }

  function Charge(st: Stores, depth: nat, now: real, out: Out): Stores {
    if Takes(out) && Counted(out) then
      var em := EmitterOf(st, out.edge.id);
      st.(emitters := st.emitters[out.edge.id :=
        Emitter(em.left + out.count, if em.left <= 0 then now else em.next, depth)])
    else st
  }

  function Charged(st: Stores, depth: nat, now: real, outs: seq<Out>): Stores {
    if outs == [] then st
    else Charge(Charged(st, depth, now, outs[..|outs| - 1]), depth, now, outs[|outs| - 1])
  }

  function Filled(st: Stores, now: real, node: nat): Stores {
    var buf := BufferOf(st, node);
    st.(buffers := st.buffers[node := Buffer(buf.count + 1, if buf.count == 0 then now else buf.firstAt)])
  }

  /** What an arrival of a particle at `depth` leaves in emitters and buffers. */
  function Met(st: Stores, depth: nat, now: real, a: Arrival): Stores {
    if IsBuffered(a) then if a.on then Filled(st, now, a.to.value.id) else st
    else if IsRelayed(a, depth) then Charged(st, depth + 1, now, a.to.value.outs)
    else st
  }

  /** The particles that the out-edges owe on edge `id` after one arrival. */
  function Owed(outs: seq<Out>, id: nat): int {
    if outs == [] then 0
    else
      var out := outs[|outs| - 1];
      Owed(outs[..|outs| - 1], id) + if Takes(out) && Counted(out) && out.edge.id == id then out.count else 0
  }

  lemma {:induction false} ChargedAdds(st: Stores, depth: nat, now: real, outs: seq<Out>, id: nat)
    ensures EmitterOf(Charged(st, depth, now, outs), id).left == EmitterOf(st, id).left + Owed(outs, id)
    ensures Charged(st, depth, now, outs).buffers == st.buffers
  {
    if outs != [] {
      ChargedAdds(st, depth, now, outs[..|outs| - 1], id);
    }
  }

  // ---- The live particles as values -------------------------------------------------

  /** The particle after one step along its edge. */
  function Moved(p: Particle, dt: real): Particle {
    p.(t := p.t + dt * p.edge.speed / p.edge.length, spin := p.spin + dt * p.spinRate)
  }

  predicate Arrives(p: Particle, dt: real) {
    Moved(p, dt).t >= 1.0
  }

  /** Swap-remove. */
  function Without(ps: seq<Particle>, i: nat): (r: seq<Particle>)
    requires i < |ps|
    ensures |r| == |ps| - 1
  {
    ps[i := ps[|ps| - 1]][..|ps| - 1]
  }

  function StepAt(ps: seq<Particle>, i: nat, dt: real, a: Arrival): (r: seq<Particle>)
    requires i < |ps|
    ensures i <= |r| && (|ps| <= MAX_CUBES ==> |r| <= MAX_CUBES)
  {
    if Arrives(ps[i], dt)
    then Without(ps, i) + Relayed(|ps| - 1, ps[i].depth, a)
    else ps[i := Moved(ps[i], dt)]
  }

  /** The cube loop with `todo` particles still to be advanced; the arrival at index `i` meets
      `arrivals(i)`. */
  function StepFrom(ps: seq<Particle>, todo: nat, dt: real, arrivals: nat -> Arrival): (r: seq<Particle>)
    requires todo <= |ps|
    decreases todo
  {
    if todo == 0 then ps else StepFrom(StepAt(ps, todo - 1, dt, arrivals(todo - 1)), todo - 1, dt, arrivals)
  }

  lemma {:induction false} StepFromTurn(ps: seq<Particle>, i: nat, dt: real, arrivals: nat -> Arrival)
    requires i < |ps|
    ensures StepFrom(ps, i + 1, dt, arrivals) == StepFrom(StepAt(ps, i, dt, arrivals(i)), i, dt, arrivals)
  {
  }

  // ---- The step without the array -------------------------------------------------------

  /** The particles that have not arrived, advanced once. */
  function Survivors(ps: seq<Particle>, dt: real): seq<Particle>
  {
    if ps == [] then []
    else
      var n := |ps| - 1;
      Survivors(ps[..n], dt) + if Arrives(ps[n], dt) then [] else [Moved(ps[n], dt)]
  }

  /** What the arrivals among `ps` spawn, the last first, while `count` are live. */
  ghost function Spawned(ps: seq<Particle>, count: nat, dt: real, arrivals: nat -> Arrival): seq<Particle>
    requires |ps| <= count
  {
    if ps == [] then []
    else
      var n := |ps| - 1;
      if Arrives(ps[n], dt) then
        var born := Relayed(count - 1, ps[n].depth, arrivals(n));
        born + Spawned(ps[..n], count - 1 + |born|, dt, arrivals)
      else Spawned(ps[..n], count, dt, arrivals)
  }

  lemma {:induction false} BornAreNew(count: nat, depth: nat, outs: seq<Out>)
    ensures forall p :: p in Born(count, depth, outs) ==> p.t == 0.0 && p.depth == depth && p.edge.particle
  {
    if outs != [] {
      BornAreNew(count, depth, outs[..|outs| - 1]);
    }
  }

  predicate IsNew(p: Particle) {
    p.t == 0.0 && 0 < p.depth <= MAX_RELAY_DEPTH && p.edge.particle
  }

  lemma RelayedAreNew(count: nat, depth: nat, a: Arrival)
    ensures forall p :: p in Relayed(count, depth, a) ==> IsNew(p) && p.depth == depth + 1
  {
    if IsRelayed(a, depth) {
      BornAreNew(count, depth + 1, a.to.value.outs);
    }
  }

  /** Whatever a step spawns starts at 0, one relay deeper than an arrival that was not too deep. */
  lemma {:induction false} SpawnedAreNew(ps: seq<Particle>, count: nat, dt: real, arrivals: nat -> Arrival)
    requires |ps| <= count
    ensures forall p :: p in Spawned(ps, count, dt, arrivals) ==> IsNew(p)
  {
    if ps != [] {
      var n := |ps| - 1;
      if Arrives(ps[n], dt) {
        RelayedAreNew(count - 1, ps[n].depth, arrivals(n));
        SpawnedAreNew(ps[..n], count - 1 + |Relayed(count - 1, ps[n].depth, arrivals(n))|, dt, arrivals);
      } else {
        SpawnedAreNew(ps[..n], count, dt, arrivals);
      }
    }
  }

  /** Whether the particle is advanced before it is removed makes no difference. */
  lemma StepAtArrival(ps: seq<Particle>, i: nat, dt: real, a: Arrival)
    requires i < |ps| && Arrives(ps[i], dt)
    ensures var moved := ps[i := Moved(ps[i], dt)];
            StepAt(ps, i, dt, a) == Without(moved, i) + Relayed(|moved| - 1, moved[i].depth, a)
  {
    assert Without(ps[i := Moved(ps[i], dt)], i) == Without(ps, i);
  }

  lemma WithoutIsMultiset(ps: seq<Particle>, i: nat)
    requires i < |ps|
    ensures multiset(Without(ps, i)[i..]) == multiset(ps[i + 1..])
    ensures Without(ps, i)[..i] == ps[..i]
  {
    var n := |ps| - 1;
    if i < n {
      assert Without(ps, i)[i..] == [ps[n]] + ps[i + 1..n];
      assert ps[i + 1..] == ps[i + 1..n] + [ps[n]];
    }
  }

  /** One turn of the loop leaves what is below `i` alone. Above, the particle at `i` moved on, or
      made way for the particles it spawned. */
  lemma StepAtIsMultiset(ps: seq<Particle>, i: nat, dt: real, a: Arrival)
    requires i < |ps|
    ensures StepAt(ps, i, dt, a)[..i] == ps[..i]
    ensures multiset(StepAt(ps, i, dt, a)[i..]) ==
              multiset(ps[i + 1..]) +
              multiset(if Arrives(ps[i], dt) then Relayed(|ps| - 1, ps[i].depth, a) else [Moved(ps[i], dt)])
  {
    if Arrives(ps[i], dt) {
      WithoutIsMultiset(ps, i);
      AppendIsMultiset(Without(ps, i), Relayed(|ps| - 1, ps[i].depth, a), i);
    } else {
      assert ps[i := Moved(ps[i], dt)][i..] == [Moved(ps[i], dt)] + ps[i + 1..];
    }
  }

  lemma AppendIsMultiset(ps: seq<Particle>, qs: seq<Particle>, i: nat)
    requires i <= |ps|
    ensures (ps + qs)[..i] == ps[..i]
    ensures multiset((ps + qs)[i..]) == multiset(ps[i..]) + multiset(qs)
  {
    assert (ps + qs)[i..] == ps[i..] + qs;
  }

  lemma {:induction false} SurvivorsOfPrefix(ps: seq<Particle>, i: nat, dt: real)
    requires i < |ps|
    ensures Survivors(ps[..i + 1], dt) == Survivors(ps[..i], dt) + if Arrives(ps[i], dt) then [] else [Moved(ps[i], dt)]
  {
    assert ps[..i + 1][..i] == ps[..i];
  }

  lemma {:induction false} SpawnedOfPrefix(ps: seq<Particle>, i: nat, dt: real, arrivals: nat -> Arrival)
    requires i < |ps|
    ensures Spawned(ps[..i + 1], |ps|, dt, arrivals) ==
              (if Arrives(ps[i], dt) then Relayed(|ps| - 1, ps[i].depth, arrivals(i)) else [])
              + Spawned(ps[..i], |StepAt(ps, i, dt, arrivals(i))|, dt, arrivals)
  {
    var front := ps[..i + 1];
    assert front[..i] == ps[..i] && front[i] == ps[i] && front != [];
    if !Arrives(ps[i], dt) {
      assert Spawned(front, |ps|, dt, arrivals) == Spawned(ps[..i], |ps|, dt, arrivals);
    }
  }

  /** The loop over the swapping array computes the step without it: whoever was live at the start
      was advanced exactly once, whoever was spawned on the way not at all. */
  lemma {:induction false} StepFromIsExact(ps: seq<Particle>, todo: nat, dt: real, arrivals: nat -> Arrival)
    requires todo <= |ps|
    ensures multiset(StepFrom(ps, todo, dt, arrivals)) ==
              multiset(ps[todo..]) + multiset(Survivors(ps[..todo], dt))
              + multiset(Spawned(ps[..todo], |ps|, dt, arrivals))
    decreases todo
  {
    if todo == 0 {
      assert ps[0..] == ps;
    } else {
      var i := todo - 1;
      var next := StepAt(ps, i, dt, arrivals(i));
      StepAtIsMultiset(ps, i, dt, arrivals(i));
      StepFromIsExact(next, i, dt, arrivals);
      SurvivorsOfPrefix(ps, i, dt);
      SpawnedOfPrefix(ps, i, dt, arrivals);
    }
  }

  /** One step of the simulation. */
  lemma StepIsExact(ps: seq<Particle>, dt: real, arrivals: nat -> Arrival)
    ensures multiset(StepFrom(ps, |ps|, dt, arrivals)) ==
              multiset(Survivors(ps, dt)) + multiset(Spawned(ps, |ps|, dt, arrivals))
  {
    StepFromIsExact(ps, |ps|, dt, arrivals);
    assert ps[..|ps|] == ps && ps[|ps|..] == [];
  }

  /** What the arrivals among `ps` leave in emitters and buffers, the last first. */
  function MetAll(st: Stores, ps: seq<Particle>, dt: real, now: real, arrivals: nat -> Arrival): Stores
    decreases |ps|
  {
    if ps == [] then st
    else
      var n := |ps| - 1;
      var next := if Arrives(ps[n], dt) then Met(st, ps[n].depth, now, arrivals(n)) else st;
      MetAll(next, ps[..n], dt, now, arrivals)
  }

  lemma {:induction false} MetAllOfPrefix(st: Stores, ps: seq<Particle>, i: nat, dt: real, now: real,
                                          arrivals: nat -> Arrival)
    requires i < |ps|
    ensures MetAll(st, ps[..i + 1], dt, now, arrivals) ==
              MetAll(if Arrives(ps[i], dt) then Met(st, ps[i].depth, now, arrivals(i)) else st,
                     ps[..i], dt, now, arrivals)
  {
    assert ps[..i + 1][..i] == ps[..i];
  }

  function OwedBy(p: Particle, dt: real, a: Arrival, id: nat): int {
    if Arrives(p, dt) && IsRelayed(a, p.depth) then Owed(a.to.value.outs, id) else 0
  }

  function TotalOwed(ps: seq<Particle>, dt: real, arrivals: nat -> Arrival, id: nat): int {
    if ps == [] then 0
    else
      var n := |ps| - 1;
      OwedBy(ps[n], dt, arrivals(n), id) + TotalOwed(ps[..n], dt, arrivals, id)
  }

  predicate Fills(p: Particle, dt: real, a: Arrival, node: nat) {
    Arrives(p, dt) && IsBuffered(a) && a.on && a.to.value.id == node
  }

  function TotalFills(ps: seq<Particle>, dt: real, arrivals: nat -> Arrival, node: nat): nat {
    if ps == [] then 0
    else
      var n := |ps| - 1;
      (if Fills(ps[n], dt, arrivals(n), node) then 1 else 0) + TotalFills(ps[..n], dt, arrivals, node)
  }

  lemma MetAdds(st: Stores, p: Particle, dt: real, now: real, a: Arrival, id: nat)
    requires Arrives(p, dt)
    ensures EmitterOf(Met(st, p.depth, now, a), id).left == EmitterOf(st, id).left + OwedBy(p, dt, a, id)
    ensures BufferOf(Met(st, p.depth, now, a), id).count
            == BufferOf(st, id).count + if Fills(p, dt, a, id) then 1 else 0
  {
    if IsRelayed(a, p.depth) {
      ChargedAdds(st, p.depth + 1, now, a.to.value.outs, id);
    }
  }

  /** Nothing an arrival is worth gets lost: what a step adds to an edge's burst and to a node's
      buffer is what its arrivals owe there. */
  lemma {:induction false} StepChargesExactly(st: Stores, ps: seq<Particle>, dt: real, now: real,
                                              arrivals: nat -> Arrival, id: nat)
    ensures EmitterOf(MetAll(st, ps, dt, now, arrivals), id).left
            == EmitterOf(st, id).left + TotalOwed(ps, dt, arrivals, id)
    ensures BufferOf(MetAll(st, ps, dt, now, arrivals), id).count
            == BufferOf(st, id).count + TotalFills(ps, dt, arrivals, id)
    decreases |ps|
  {
    if ps != [] {
      var n := |ps| - 1;
      if Arrives(ps[n], dt) {
        MetAdds(st, ps[n], dt, now, arrivals(n), id);
        StepChargesExactly(Met(st, ps[n].depth, now, arrivals(n)), ps[..n], dt, now, arrivals, id);
      } else {
        StepChargesExactly(st, ps[..n], dt, now, arrivals, id);
      }
    }
  }

  // ---- Recycling an edge ------------------------------------------------------------------

  /** The particles that are not on the edge. */
  function OffEdge(ps: seq<Particle>, e: Edge): seq<Particle> {
    if ps == [] then [] else (if ps[0].edge == e then [] else [ps[0]]) + OffEdge(ps[1..], e)
  }

  /** From index `i` on, what is left of `start` is what was not on the edge. */
  ghost predicate RecycledFrom(start: seq<Particle>, ps: seq<Particle>, i: nat, e: Edge) {
    && i <= |start| && i <= |ps| && ps[..i] == start[..i]
    && multiset(ps[i..]) == multiset(OffEdge(start[i..], e))
  }

  lemma {:induction false} RecycleStep(start: seq<Particle>, ps: seq<Particle>, i: nat, e: Edge)
    requires RecycledFrom(start, ps, i + 1, e)
    ensures RecycledFrom(start, if ps[i].edge == e then Without(ps, i) else ps, i, e)
  {
    assert ps[i] == ps[..i + 1][i] == start[i] && ps[..i] == ps[..i + 1][..i] == start[..i];
    assert start[i..][1..] == start[i + 1..];
    if ps[i].edge == e {
      WithoutIsMultiset(ps, i);
    } else {
      assert ps[i..] == [ps[i]] + ps[i + 1..];
    }
  }

  // ---- The pool ---------------------------------------------------------------------------

  class Cube {
    var edge: Option<Edge>
    var t: real
    var depth: nat
    var spin: real
    var spinRate: real

    constructor ()
      ensures edge == None
    {
      edge, t, depth, spin, spinRate := None, 0.0, 0, 0.0, 0.0;
    }

    ghost function Value(): Particle
      reads this
      requires edge.Some?
    {
      Particle(edge.value, t, depth, spin, spinRate)
    }
  }

  class Pool {
    const cubes: array<Cube>
    var cubeCount: nat
    var emitters: map<nat, Emitter>
    var buffers: map<nat, Buffer>

    /** The objects the pool was built with: `cubes` is always a permutation of them. */
    ghost const objects: set<Cube>

    ghost predicate Valid()
      reads this, cubes, objects
    {
      && cubes.Length == MAX_CUBES == |objects|
      && cubeCount <= cubes.Length
      && (forall i :: 0 <= i < cubes.Length ==> cubes[i] in objects)
      && (forall i, j :: 0 <= i < j < cubes.Length ==> cubes[i] != cubes[j])
      && (forall i :: 0 <= i < cubeCount ==> cubes[i].edge.Some?)
    }

    /** The live particles, in the array's order. */
    ghost function Values(): (ps: seq<Particle>)
      reads this, cubes, objects
      requires Valid()
      ensures |ps| == cubeCount
      ensures forall k :: 0 <= k < cubeCount ==> ps[k] == cubes[k].Value()
    {
      seq(cubeCount, k requires 0 <= k < cubeCount && Valid() reads this, cubes, objects => cubes[k].Value())
    }

    ghost function Kept(): Stores
      reads this
    {
      Stores(emitters, buffers)
    }

    constructor ()
      ensures Valid() && cubeCount == 0 && Kept() == Stores(map[], map[]) && fresh(cubes) && fresh(objects)
    {
      var made: seq<Cube> := [];
      ghost var all: set<Cube> := {};
      for k := 0 to MAX_CUBES
        invariant |made| == k == |all| && fresh(all)
        invariant forall i :: 0 <= i < k ==> made[i] in all
        invariant forall i, j :: 0 <= i < j < k ==> made[i] != made[j]
      {
        var c := new Cube();
        made := made + [c];
        all := all + {c};
      }
      objects := all;
      cubes := new Cube[MAX_CUBES](i requires 0 <= i < |made| => made[i]);
      cubeCount, emitters, buffers := 0, map[], map[];
    }

    method SpawnCube(e: Edge, depth: nat, spin: real, spinRate: real)
      requires Valid()
      modifies this`cubeCount, if cubeCount < cubes.Length then {cubes[cubeCount]} else {}
      ensures Valid()
      ensures Values() == old(Values()) +
                if old(cubeCount) < MAX_CUBES && e.particle then [Particle(e, 0.0, depth, spin, spinRate)] else []
    {
      if cubeCount >= MAX_CUBES || !e.particle {
        return;
      }
      var p := cubes[cubeCount];
      cubeCount := cubeCount + 1;
      p.edge := Some(e);
      p.t := 0.0;
      p.depth := depth;
      p.spin := spin;
      p.spinRate := spinRate;
    }

    method FreeCube(i: nat)
      requires Valid() && i < cubeCount
      modifies this`cubeCount, cubes, {cubes[i]}
      ensures Valid()
      ensures Values() == Without(old(Values()), i)
      ensures cubes[i] == old(cubes[cubeCount - 1]) && cubes[cubeCount] == old(cubes[i])
      ensures forall k :: 0 <= k < cubes.Length && k != i && k != cubeCount ==> cubes[k] == old(cubes[k])
      ensures old(cubes[i]).edge == None
    {
      cubeCount := cubeCount - 1;
      var last := cubeCount;
      var p := cubes[i];
      p.edge := None;
      cubes[i] := cubes[last];
      cubes[last] := p;
    }

    /** Queue a burst on a counted relay edge. */
    method ChargeEmitter(out: Out, depth: nat, now: real)
      requires Takes(out) && Counted(out)
      modifies this`emitters
      ensures Kept() == Charge(old(Kept()), depth, now, out)
    {
      var em := if out.edge.id in emitters then emitters[out.edge.id] else Emitter(0, 0.0, 0);
      var next := em.next;
      if em.left <= 0 {
        next := now;
      }
      emitters := emitters[out.edge.id := Emitter(em.left + out.count, next, depth)];
    }

    /** The out-edges that take the arrival get a particle each, or a burst. */
    method RelayOn(outs: seq<Out>, depth: nat, now: real)
      requires Valid()
      modifies this`cubeCount, this`emitters, set k | cubeCount <= k < cubes.Length :: cubes[k]
      ensures Valid()
      ensures Values() == old(Values()) + Born(old(cubeCount), depth, outs)
      ensures Kept() == Charged(old(Kept()), depth, now, outs)
    {
      for j := 0 to |outs|
        invariant Valid() && old(cubeCount) <= cubeCount
        invariant Values() == old(Values()) + Born(old(cubeCount), depth, outs[..j])
        invariant Kept() == Charged(old(Kept()), depth, now, outs[..j])
      {
        assert outs[..j + 1][..j] == outs[..j];
        if !Takes(outs[j]) {
          continue;
        }
        if outs[j].count <= 1 {
          SpawnCube(outs[j].edge, depth, outs[j].spin, outs[j].spinRate);
        } else {
          ChargeEmitter(outs[j], depth, now);
        }
      }
      assert outs[..|outs|] == outs;
    }

    /** A particle arrives: at a node that is gone or going it vanishes, a buffer swallows data, and
        otherwise it is relayed unless it has been relayed too often. */
    method Arrive(a: Arrival, depth: nat, now: real)
      requires Valid()
      modifies this`cubeCount, this`emitters, this`buffers, set k | cubeCount <= k < cubes.Length :: cubes[k]
      ensures Valid()
      ensures Values() == old(Values()) + Relayed(old(cubeCount), depth, a)
      ensures Kept() == Met(old(Kept()), depth, now, a)
    {
      if a.to.None? || a.to.value.leaving {
        return;
      }
      var to := a.to.value;
      if to.buffered && a.data {
        if a.on {
          var buf := if to.id in buffers then buffers[to.id] else Buffer(0, 0.0);
          buffers := buffers[to.id := Buffer(buf.count + 1, if buf.count == 0 then now else buf.firstAt)];
        }
        return;
      }
      if depth >= MAX_RELAY_DEPTH {
        return;
      }
      RelayOn(to.outs, depth + 1, now);
    }

    method AdvanceOne(i: nat, dt: real)
      requires Valid() && i < cubeCount
      modifies {cubes[i]}
      ensures Valid()
      ensures Values() == old(Values())[i := Moved(old(Values())[i], dt)]
      ensures Moved(old(Values())[i], dt).t
              == old(cubes[i].t) + dt * old(cubes[i].edge).value.speed / old(cubes[i].edge).value.length
      ensures Moved(old(Values())[i], dt).spin == old(cubes[i].spin) + dt * old(cubes[i].spinRate)
    {
      ghost var was := Values();
      var p := cubes[i];
      p.t := p.t + dt * p.edge.value.speed / p.edge.value.length;
      p.spin := p.spin + dt * p.spinRate;
      assert p.Value() == Moved(was[i], dt);
    }

    /** The arrived particle at `i` leaves, the last one takes its place, relays follow. */
    method Retire(i: nat, a: Arrival, now: real)
      requires Valid() && i < cubeCount
      modifies this, cubes, objects
      ensures Valid()
      ensures Values() == Without(old(Values()), i) + Relayed(old(cubeCount) - 1, old(Values())[i].depth, a)
      ensures Kept() == Met(old(Kept()), old(Values())[i].depth, now, a)
    {
      var depth := cubes[i].depth;
      FreeCube(i);
      Arrive(a, depth, now);
    }

    /** Advance the particle at `i` and retire it on arrival. */
    method StepOne(i: nat, dt: real, now: real, a: Arrival)
      requires Valid() && i < cubeCount
      modifies this, cubes, objects
      ensures Valid()
      ensures Values() == StepAt(old(Values()), i, dt, a)
      ensures Kept() == if Arrives(old(Values())[i], dt) then Met(old(Kept()), old(Values())[i].depth, now, a)
                        else old(Kept())
    {
      ghost var was := Values();
      AdvanceOne(i, dt);
      if cubes[i].t >= 1.0 {
        StepAtArrival(was, i, dt, a);
        Retire(i, a, now);
      }
    }

    /** Taking the loop from `todo` on ends with these particles and stores. */
    ghost predicate EndsWith(end: seq<Particle>, kept: Stores, todo: nat, dt: real, now: real, arrivals: nat -> Arrival)
      reads this, cubes, objects
      requires Valid() && todo <= cubeCount
    {
      && StepFrom(Values(), todo, dt, arrivals) == end
      && MetAll(Kept(), Values()[..todo], dt, now, arrivals) == kept
    }

    method Turn(i: nat, dt: real, now: real, arrivals: nat -> Arrival, ghost end: seq<Particle>, ghost kept: Stores)
      requires Valid() && i < cubeCount && EndsWith(end, kept, i + 1, dt, now, arrivals)
      modifies this, cubes, objects
      ensures Valid() && i <= cubeCount && EndsWith(end, kept, i, dt, now, arrivals)
    {
      ghost var before := Values();
      StepFromTurn(before, i, dt, arrivals);
      StepAtIsMultiset(before, i, dt, arrivals(i));
      MetAllOfPrefix(Kept(), before, i, dt, now, arrivals);
      StepOne(i, dt, now, arrivals(i));
    }

    /** One simulation step for the cubes, at time `now`. */
    method StepCubes(dt: real, now: real, arrivals: nat -> Arrival)
      requires Valid()
      modifies this, cubes, objects
      ensures Valid()
      ensures Values() == StepFrom(old(Values()), old(cubeCount), dt, arrivals)
      ensures multiset(Values()) ==
                multiset(Survivors(old(Values()), dt)) + multiset(Spawned(old(Values()), old(cubeCount), dt, arrivals))
      ensures Kept() == MetAll(old(Kept()), old(Values()), dt, now, arrivals)
    {
      ghost var end := StepFrom(Values(), cubeCount, dt, arrivals);
      ghost var kept := MetAll(Kept(), Values(), dt, now, arrivals);
      StepIsExact(Values(), dt, arrivals);
      assert Values()[..cubeCount] == Values();
      for i := cubeCount downto 0
        invariant Valid() && i <= cubeCount && EndsWith(end, kept, i, dt, now, arrivals)
      {
        Turn(i, dt, now, arrivals, end, kept);
      }
    }

    method RecycleOne(i: nat, e: Edge, ghost start: seq<Particle>)
      requires Valid() && RecycledFrom(start, Values(), i + 1, e)
      modifies this`cubeCount, cubes, objects
      ensures Valid() && RecycledFrom(start, Values(), i, e)
    {
      RecycleStep(start, Values(), i, e);
      if cubes[i].edge == Some(e) {
        FreeCube(i);
      }
    }

    /** Free exactly the particles on an edge that is going away. */
    method RecycleParticlesOn(e: Edge)
      requires Valid()
      modifies this`cubeCount, cubes, objects
      ensures Valid() && multiset(Values()) == multiset(OffEdge(old(Values()), e))
    {
      ghost var start := Values();
      for i := cubeCount downto 0
        invariant Valid() && RecycledFrom(start, Values(), i, e)
      {
        RecycleOne(i, e, start);
      }
      assert start[0..] == start && Values()[0..] == Values();
    }
  }
}
