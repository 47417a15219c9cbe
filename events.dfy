/**
 * The notifications the entity and component managers hand to the event spawner or
 * queue on the event manager, as an append-only log, and the sets of notifications
 * one call produces.
 */
module Events {
  import opened Types

  /** The notifications the entity and component managers hand on for queueing. */
  datatype Event =
    | ComponentAdded(entity: Entity, componentType: TypeId)
    | ComponentRemoved(entity: Entity, componentType: TypeId)
    | SharedComponentAdded(entity: Entity, componentType: TypeId, component: Ptr)
    | SharedComponentRemoved(entity: Entity, componentType: TypeId, component: Ptr)
    | EntityCreated(entity: Entity)
    | EntityDestroyed(entity: Entity)

  /** `s` lists every event of `evs` exactly once, in some order. */
  ghost predicate Enumerates(s: seq<Event>, evs: set<Event>) {
    |s| == |evs| && forall x :: x in s <==> x in evs
  }

  /** `s` is one enumeration of each phase, the phases one after the other. */
  ghost predicate InPhases(s: seq<Event>, phases: seq<set<Event>>)
    decreases |phases|
  {
    if phases == [] then s == []
    else
      && |phases[0]| <= |s|
      && Enumerates(s[..|phases[0]|], phases[0])
      && InPhases(s[|phases[0]|..], phases[1..])
  }

  /** `after` is `before` followed by the events of the phases, phase by phase. */
  ghost predicate Logged(before: seq<Event>, after: seq<Event>, phases: seq<set<Event>>) {
    |before| <= |after| && after[..|before|] == before && InPhases(after[|before|..], phases)
  }

  lemma {:induction false} InPhasesAppend(x: seq<Event>, y: seq<Event>, p: seq<set<Event>>, q: seq<set<Event>>)
    requires InPhases(x, p) && InPhases(y, q)
    ensures InPhases(x + y, p + q)
    decreases |p|
  {
    if p == [] {
      assert x + y == y && p + q == q;
    } else {
      var n := |p[0]|;
      assert (x + y)[..n] == x[..n];
      assert (x + y)[n..] == x[n..] + y;
      assert (p + q)[0] == p[0] && (p + q)[1..] == p[1..] + q;
      InPhasesAppend(x[n..], y, p[1..], q);
    }
  }

  /** Two batches of notifications posted one after the other make one log of both. */
  lemma LoggedThen(a: seq<Event>, b: seq<Event>, c: seq<Event>, p: seq<set<Event>>, q: seq<set<Event>>)
    requires Logged(a, b, p) && Logged(b, c, q)
    ensures Logged(a, c, p + q)
  {
    assert c[..|a|] == c[..|b|][..|a|];
    assert c[|a|..] == b[|a|..] + c[|b|..];
    InPhasesAppend(b[|a|..], c[|b|..], p, q);
  }

  /** A single notification is a log of one batch holding just it. */
  lemma LoggedOne(a: seq<Event>, ev: Event)
    ensures Logged(a, a + [ev], [{ev}])
  {
    var s := (a + [ev])[|a|..];
    assert s == [ev] && s[..1] == [ev] && s[1..] == [];
    assert [{ev}][1..] == [];
  }

  /**
   * The notifications the managers hand to the component event spawner (component and
   * shared-component changes) or queue directly (entity creation and destruction), in
   * order. Whether the spawner forwards one to the event manager depends on its
   * per-type registrations, which are not part of this model; nor is the dispatch to
   * listeners.
   */
  class EventLog {
    var events: seq<Event>

    constructor ()
      ensures events == []
    {
      events := [];
    }

    /** One notification. */
    method Post(ev: Event)
      modifies this
      ensures events == old(events) + [ev]
    {
      events := events + [ev];
    }

    /** One notification per element of `evs`, in the unspecified order of a hash-map walk. */
    method PostAll(evs: set<Event>)
      modifies this
      ensures Logged(old(events), events, [evs])
    {
      ghost var start := events;
      ghost var done: seq<Event> := [];
      var todo := evs;
      while todo != {}
        invariant todo <= evs && events == start + done
        invariant |done| == |evs - todo| && forall x :: x in done <==> x in evs - todo
        decreases |todo|
      {
        var x :| x in todo;
        assert evs - (todo - {x}) == (evs - todo) + {x};
        events := events + [x];
        done := done + [x];
        todo := todo - {x};
      }
      assert events[|start|..] == done;
      assert evs - todo == evs;
      assert done[..|evs|] == done && done[|evs|..] == [];
    }

    /** The batches of `phases`, one after the other, each in some order. */
    method PostPhases(phases: seq<set<Event>>)
      modifies this
      ensures Logged(old(events), events, phases)
    {
      ghost var start := events;
      assert events[..|start|] == start && events[|start|..] == [];
      var i := 0;
      while i < |phases|
        invariant 0 <= i <= |phases| && Logged(start, events, phases[..i])
      {
        ghost var mid := events;
        PostAll(phases[i]);
        LoggedThen(start, mid, events, phases[..i], [phases[i]]);
        assert phases[..i] + [phases[i]] == phases[..i + 1];
        i := i + 1;
      }
      assert phases[..i] == phases;
    }
  }

  /** One "added" notification per component type. */
  function ComponentsAdded(e: Entity, types: set<TypeId>): set<Event> {
    set t | t in types :: ComponentAdded(e, t)
  }

  function ComponentsRemoved(e: Entity, types: set<TypeId>): set<Event> {
    set t | t in types :: ComponentRemoved(e, t)
  }

  function SharedAdded(e: Entity, shared: map<TypeId, Ptr>): set<Event> {
    set t | t in shared :: SharedComponentAdded(e, t, shared[t])
  }

  function SharedRemoved(e: Entity, shared: map<TypeId, Ptr>): set<Event> {
    set t | t in shared :: SharedComponentRemoved(e, t, shared[t])
  }

  /** The shared bindings of `m` whose type `other` does not bind. */
  function OnlyIn(m: map<TypeId, Ptr>, other: map<TypeId, Ptr>): (r: map<TypeId, Ptr>)
    ensures r.Keys == m.Keys - other.Keys
    ensures forall t :: t in r ==> r[t] == m[t]
  {
    map t | t in m && t !in other :: m[t]
  }
}
