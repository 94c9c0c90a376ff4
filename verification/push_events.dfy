/** The ref changes reported for a push, and the lock that makes them add up. */
module PushEvents {
  import opened Results
  import opened CommitGraph
  import opened RepositoryModel

  /** What happened to one ref, if anything did. */
  function ChangeOf(before: Refs, after: Refs, ref: string): RefChange {
    RefChange(ref, Lookup(before, ref), Lookup(after, ref))
  }

  /** The list names every ref that differs, once, with its two values, and nothing else. */
  ghost predicate Reports(changes: seq<RefChange>, before: Refs, after: Refs) {
    (forall i, j :: 0 <= i < j < |changes| ==> changes[i].ref != changes[j].ref) &&
    (forall i :: 0 <= i < |changes| ==>
      changes[i] == ChangeOf(before, after, changes[i].ref) && changes[i].before != changes[i].after) &&
    (forall ref :: Lookup(before, ref) != Lookup(after, ref) ==> exists i :: 0 <= i < |changes| && changes[i].ref == ref)
  }

  method DiffRefs(before: Refs, after: Refs) returns (changes: seq<RefChange>)
    ensures Reports(changes, before, after)
  {
    changes := [];
    var rest := before.Keys;
    while rest != {}
      invariant rest <= before.Keys
      invariant forall i, j :: 0 <= i < j < |changes| ==> changes[i].ref != changes[j].ref
      invariant forall i :: 0 <= i < |changes| ==>
                  changes[i].ref in before && changes[i].ref !in rest &&
                  changes[i] == ChangeOf(before, after, changes[i].ref) && changes[i].before != changes[i].after
      invariant forall ref :: ref in before && ref !in rest && Lookup(before, ref) != Lookup(after, ref) ==>
                  exists i :: 0 <= i < |changes| && changes[i].ref == ref
      decreases rest
    {
      var ref :| ref in rest;
      rest := rest - {ref};
      ghost var was := changes;
      if ref !in after {
        changes := changes + [RefChange(ref, Some(before[ref]), None)];
        assert changes[|was|].ref == ref;
      } else if after[ref] != before[ref] {
        changes := changes + [RefChange(ref, Some(before[ref]), Some(after[ref]))];
        assert changes[|was|].ref == ref;
      }
      assert forall i :: 0 <= i < |was| ==> changes[i] == was[i];
    }
    changes := AppendCreated(before, after, changes);
  }

  /** The second loop: refs that were not there before. */
  method AppendCreated(before: Refs, after: Refs, found: seq<RefChange>) returns (changes: seq<RefChange>)
    requires forall i, j :: 0 <= i < j < |found| ==> found[i].ref != found[j].ref
    requires forall i :: 0 <= i < |found| ==>
               found[i].ref in before && found[i] == ChangeOf(before, after, found[i].ref) && found[i].before != found[i].after
    requires forall ref :: ref in before && Lookup(before, ref) != Lookup(after, ref) ==>
               exists i :: 0 <= i < |found| && found[i].ref == ref
    ensures Reports(changes, before, after)
  {
    changes := found;
    var rest := after.Keys;
    while rest != {}
      invariant rest <= after.Keys
      invariant found <= changes
      invariant forall i, j :: 0 <= i < j < |changes| ==> changes[i].ref != changes[j].ref
      invariant forall i :: 0 <= i < |changes| ==>
                  changes[i].ref !in rest - before.Keys &&
                  changes[i] == ChangeOf(before, after, changes[i].ref) && changes[i].before != changes[i].after
      invariant forall ref :: ref in after && ref !in rest && ref !in before ==> exists i :: 0 <= i < |changes| && changes[i].ref == ref
      decreases rest
    {
      var ref :| ref in rest;
      rest := rest - {ref};
      ghost var was := changes;
      if ref !in before {
        changes := changes + [RefChange(ref, None, Some(after[ref]))];
        assert changes[|was|].ref == ref;
      }
      assert forall i :: 0 <= i < |was| ==> changes[i] == was[i];
    }
    forall ref | Lookup(before, ref) != Lookup(after, ref) ensures exists i :: 0 <= i < |changes| && changes[i].ref == ref {
      if ref in before {
        var i :| 0 <= i < |found| && found[i].ref == ref;
        assert changes[i] == found[i];
      }
    }
  }

  // ---------------------------------------------------------------- replaying

  function ApplyChange(refs: Refs, c: RefChange): Refs {
    match c.after
    case None => refs - {c.ref}
    case Some(id) => refs[c.ref := id]
  }

  function ApplyAll(refs: Refs, changes: seq<RefChange>): Refs {
    if changes == [] then refs else ApplyChange(ApplyAll(refs, changes[..|changes| - 1]), changes[|changes| - 1])
  }

  lemma {:induction false} ApplyAllConcat(refs: Refs, a: seq<RefChange>, b: seq<RefChange>)
    ensures ApplyAll(refs, a + b) == ApplyAll(ApplyAll(refs, a), b)
  {
    if b == [] {
      assert a + b == a;
    } else {
      assert (a + b)[..|a + b| - 1] == a + b[..|b| - 1];
      ApplyAllConcat(refs, a, b[..|b| - 1]);
    }
  }

  /** Where distinct changes leave one ref. */
  lemma {:induction false} ApplyAllAt(refs: Refs, changes: seq<RefChange>, ref: string)
    requires forall i, j :: 0 <= i < j < |changes| ==> changes[i].ref != changes[j].ref
    ensures (forall i :: 0 <= i < |changes| ==> changes[i].ref != ref) ==> Lookup(ApplyAll(refs, changes), ref) == Lookup(refs, ref)
    ensures forall i :: 0 <= i < |changes| && changes[i].ref == ref ==> Lookup(ApplyAll(refs, changes), ref) == changes[i].after
  {
    if changes != [] {
      var init, last := changes[..|changes| - 1], changes[|changes| - 1];
      ApplyAllAt(refs, init, ref);
      assert forall i :: 0 <= i < |init| ==> init[i] == changes[i];
    }
  }

  lemma LookupsDetermine(a: Refs, b: Refs)
    requires forall ref :: Lookup(a, ref) == Lookup(b, ref)
    ensures a == b
  {
    forall ref ensures ref in a <==> ref in b
      ensures ref in a ==> a[ref] == b[ref]
    {
      assert Lookup(a, ref) == Lookup(b, ref);
    }
  }

  /**
   * Push events replay to the truth: whatever order the maps were iterated in and in whatever
   * order the reported changes are applied, they turn the refs before into the refs after.
   */
  lemma ReportsReplay(changes: seq<RefChange>, order: seq<RefChange>, before: Refs, after: Refs)
    requires Reports(changes, before, after) && multiset(order) == multiset(changes)
    ensures Reports(order, before, after)
    ensures ApplyAll(before, order) == after
  {
    ReportsInAnyOrder(changes, order, before, after);
    forall ref ensures Lookup(ApplyAll(before, order), ref) == Lookup(after, ref) {
      ApplyAllAt(before, order, ref);
    }
    LookupsDetermine(ApplyAll(before, order), after);
  }

  lemma ReportsInAnyOrder(changes: seq<RefChange>, order: seq<RefChange>, before: Refs, after: Refs)
    requires Reports(changes, before, after) && multiset(order) == multiset(changes)
    ensures Reports(order, before, after)
  {
    forall c ensures c in order <==> c in changes {
      assert c in order <==> c in multiset(order);
      assert c in changes <==> c in multiset(changes);
    }
    forall i, j | 0 <= i < j < |order| ensures order[i].ref != order[j].ref {
      if order[i].ref == order[j].ref {
        assert order[i] in changes && order[j] in changes;
        assert order[i] == order[j];
        OccursTwice(order, i, j);
        OccursOnce(changes, order[i]);
        assert false;
      }
    }
    forall i | 0 <= i < |order|
      ensures order[i] == ChangeOf(before, after, order[i].ref) && order[i].before != order[i].after
    {
      assert order[i] in changes;
    }
    forall ref | Lookup(before, ref) != Lookup(after, ref) ensures exists i :: 0 <= i < |order| && order[i].ref == ref {
      var i :| 0 <= i < |changes| && changes[i].ref == ref;
      assert changes[i] in order;
    }
  }

  lemma OccursTwice(s: seq<RefChange>, i: nat, j: nat)
    requires i < j < |s| && s[i] == s[j]
    ensures multiset(s)[s[i]] >= 2
  {
    assert s == s[..j] + [s[j]] + s[j + 1..];
    assert s[i] in s[..j];
  }

  lemma OccursOnce(s: seq<RefChange>, c: RefChange)
    requires forall i, j :: 0 <= i < j < |s| ==> s[i].ref != s[j].ref
    ensures multiset(s)[c] <= 1
  {
    if c in multiset(s) {
      var i :| 0 <= i < |s| && s[i] == c;
      assert s == s[..i] + [s[i]] + s[i + 1..];
      assert c !in s[..i] && c !in s[i + 1..];
      assert multiset(s) == multiset(s[..i]) + multiset{c} + multiset(s[i + 1..]);
    }
  }

  // ------------------------------------------------------------- the repo lock

  /** Where a push is: it holds the lock from the first listing to the second. */
  datatype Push = Holding | Listed(before: Refs) | Packed(before: Refs) | Done(changes: seq<RefChange>)

  /** refs, the holder of the repository's lock, the pushes, and all reported changes in lock order. */
  datatype Server = Server(refs: Refs, holder: Option<nat>, pushes: map<nat, Push>, events: seq<RefChange>)

  datatype PushStep =
    | Lock(p: nat)
    | ListBefore(p: nat)
    | Pack(p: nat, after: Refs)
    | Report(p: nat, changes: seq<RefChange>)

  /** One step of some push; steps that are not its turn to take change nothing. */
  ghost function PushDo(s: Server, step: PushStep): Server {
    match step
    case Lock(p) =>
      if p in s.pushes || s.holder.Some? then s else s.(holder := Some(p), pushes := s.pushes[p := Holding])
    case ListBefore(p) =>
      if p in s.pushes && s.pushes[p].Holding? then s.(pushes := s.pushes[p := Listed(s.refs)]) else s
    case Pack(p, after) =>
      if p in s.pushes && s.pushes[p].Listed? then s.(refs := after, pushes := s.pushes[p := Packed(s.pushes[p].before)]) else s
    case Report(p, changes) =>
      if p in s.pushes && s.pushes[p].Packed? && Reports(changes, s.pushes[p].before, s.refs)
      then s.(holder := None, pushes := s.pushes[p := Done(changes)], events := s.events + changes)
      else s
  }

  ghost function PushRun(s: Server, steps: seq<PushStep>): Server {
    if steps == [] then s else PushDo(PushRun(s, steps[..|steps| - 1]), steps[|steps| - 1])
  }

  /** Only the holder is under way, and the events account for all but its own changes. */
  ghost predicate EventsAddUp(initial: Refs, s: Server) {
    (forall p :: p in s.pushes && !s.pushes[p].Done? ==> s.holder == Some(p)) &&
    (s.holder.Some? ==> s.holder.value in s.pushes && !s.pushes[s.holder.value].Done?) &&
    match s.holder
    case None => ApplyAll(initial, s.events) == s.refs
    case Some(p) =>
      match s.pushes[p]
      case Holding => ApplyAll(initial, s.events) == s.refs
      case Listed(before) => ApplyAll(initial, s.events) == before == s.refs
      case Packed(before) => ApplyAll(initial, s.events) == before
      case Done(_) => true
  }

  lemma PushDoAddsUp(initial: Refs, s: Server, step: PushStep)
    requires EventsAddUp(initial, s)
    ensures EventsAddUp(initial, PushDo(s, step))
  {
    if step.Report? && step.p in s.pushes && s.pushes[step.p].Packed? && Reports(step.changes, s.pushes[step.p].before, s.refs) {
      ReportsReplay(step.changes, step.changes, s.pushes[step.p].before, s.refs);
      ApplyAllConcat(initial, s.events, step.changes);
    }
  }

  /**
   * When pushes are all that changes a repository, its lock makes their reports concatenated in
   * lock order lead from the first refs to the refs seen whenever the lock is free.
   */
  lemma {:induction false} EventsLeadToRefs(s: Server, steps: seq<PushStep>)
    requires s.holder == None && s.pushes == map[] && s.events == []
    ensures EventsAddUp(s.refs, PushRun(s, steps))
    ensures PushRun(s, steps).holder == None ==> ApplyAll(s.refs, PushRun(s, steps).events) == PushRun(s, steps).refs
  {
    if steps != [] {
      EventsLeadToRefs(s, steps[..|steps| - 1]);
      PushDoAddsUp(s.refs, PushRun(s, steps[..|steps| - 1]), steps[|steps| - 1]);
    }
  }
}
