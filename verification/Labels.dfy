/**
  Label updates (events.go).  A Go slice of label IDs is a nullable array, so a
  nil slice differs from an empty one and two messages can share one slice; map
  iteration visits keys in an arbitrary order.
 */
module Labels {
  import opened Wrappers

  type LabelID = string
  type LabelSlice = array?<LabelID>

  class Message {
    var time: int
    var unread: int
    var kind: int
    var isReplied: int
    var isRepliedAll: int
    var isForwarded: int
    var labelIDs: LabelSlice

    constructor (labelIDs: LabelSlice)
      ensures this.labelIDs == labelIDs
    {
      this.labelIDs := labelIDs;
      time, unread, kind, isReplied, isRepliedAll, isForwarded := 0, 0, 0, 0, 0, 0;
    }
  }

  datatype Update = Update(
    unread: Option<int>,
    kind: Option<int>,
    time: int,
    isReplied: Option<int>,
    isRepliedAll: Option<int>,
    isForwarded: Option<int>,
    labelIDs: LabelSlice,
    added: LabelSlice,
    removed: LabelSlice)

  function Elements(a: LabelSlice): set<LabelID>
    reads a
  {
    if a == null then {} else set x | x in a[..]
  }

  ghost predicate NoDuplicates(a: LabelSlice)
    reads a
  {
    a != null ==> forall i, j :: 0 <= i < j < a.Length ==> a[i] != a[j]
  }

  // ---- updates as values ----

  datatype Delta = Delta(added: set<LabelID>, removed: set<LabelID>)

  /** The label part of an update; None is a nil slice. */
  datatype Change = Change(full: Option<set<LabelID>>, added: Option<set<LabelID>>, removed: Option<set<LabelID>>)

  function AsOption(a: LabelSlice): Option<set<LabelID>>
    reads a
  {
    if a == null then None else Some(Elements(a))
  }

  function ChangeOf(u: Update): Change
    reads u.labelIDs, u.added, u.removed
  {
    Change(AsOption(u.labelIDs), AsOption(u.added), AsOption(u.removed))
  }

  predicate IsPair(c: Change) {
    c.added.Some? && c.removed.Some?
  }

  function Apply(labels: set<LabelID>, d: Delta): set<LabelID> {
    (labels + d.added) - d.removed
  }

  /** `Patch` prefers the full list. */
  function Patched(c: Change, labels: set<LabelID>): set<LabelID> {
    if c.full.Some? then c.full.value
    else if IsPair(c) then Apply(labels, Delta(c.added.value, c.removed.value))
    else labels
  }

  /** `DiffLabelIDs` prefers the pair. */
  function Diffed(c: Change, labels: set<LabelID>): Delta {
    if IsPair(c) then Delta(c.added.value, c.removed.value)
    else if c.full.Some? then Delta(c.full.value - labels, labels - c.full.value)
    else Delta({}, {})
  }

  // ---- the code ----

  method BuildLabelsSet(labelIDs: LabelSlice) returns (s: set<LabelID>)
    ensures s == Elements(labelIDs)
  {
    s := {};
    if labelIDs != null {
      for i := 0 to labelIDs.Length
        invariant s == set x | x in labelIDs[..i]
      {
        s := s + {labelIDs[i]};
        assert labelIDs[..i + 1] == labelIDs[..i] + [labelIDs[i]];
      }
      assert labelIDs[..labelIDs.Length] == labelIDs[..];
    }
  }

  method FromSeq(s: seq<LabelID>) returns (a: array<LabelID>)
    ensures fresh(a) && a[..] == s
  {
    a := new LabelID[|s|](k requires 0 <= k < |s| => s[k]);
  }

  /** Appends to a nil slice the members of `s` outside `without`, in some order. */
  method AppendMissing(s: set<LabelID>, without: set<LabelID>) returns (r: LabelSlice)
    ensures Elements(r) == s - without && NoDuplicates(r)
    ensures r == null <==> s <= without
    ensures r != null ==> fresh(r)
  {
    var todo := s;
    var out: seq<LabelID> := [];
    while todo != {}
      invariant todo <= s
      invariant forall x :: x in out <==> x in s && x !in todo && x !in without
      invariant forall i, j :: 0 <= i < j < |out| ==> out[i] != out[j]
      decreases todo
    {
      var labelID :| labelID in todo;
      todo := todo - {labelID};
      if labelID !in without {
        out := out + [labelID];
      }
    }
    if |out| == 0 {
      assert forall x :: x in s ==> x in without;
      return null;
    }
    assert out[0] in s;
    r := FromSeq(out);
  }

  method DiffLabelIDs(u: Update, current: LabelSlice) returns (added: LabelSlice, removed: LabelSlice)
    ensures Delta(Elements(added), Elements(removed)) == Diffed(ChangeOf(u), Elements(current))
    ensures u.added != null && u.removed != null ==> added == u.added && removed == u.removed
    ensures !IsPair(ChangeOf(u)) ==> NoDuplicates(added) && NoDuplicates(removed)
    ensures !IsPair(ChangeOf(u)) && u.labelIDs == null ==> added == removed == null
  {
    if u.added != null && u.removed != null {
      return u.added, u.removed;
    }
    if u.labelIDs == null {
      return null, null;
    }
    var currentSet := BuildLabelsSet(current);
    var updateSet := BuildLabelsSet(u.labelIDs);
    removed := AppendMissing(currentSet, updateSet);
    added := AppendMissing(updateSet, currentSet);
  }

  method PatchScalars(u: Update, msg: Message)
    modifies msg`time, msg`unread, msg`kind, msg`isReplied, msg`isRepliedAll, msg`isForwarded
    ensures msg.time == u.time
    ensures msg.unread == if u.unread.Some? then u.unread.value else old(msg.unread)
    ensures msg.kind == if u.kind.Some? then u.kind.value else old(msg.kind)
    ensures msg.isReplied == if u.isReplied.Some? then u.isReplied.value else old(msg.isReplied)
    ensures msg.isRepliedAll == if u.isRepliedAll.Some? then u.isRepliedAll.value else old(msg.isRepliedAll)
    ensures msg.isForwarded == if u.isForwarded.Some? then u.isForwarded.value else old(msg.isForwarded)
  {
    msg.time := u.time;
    if u.unread.Some? { msg.unread := u.unread.value; }
    if u.kind.Some? { msg.kind := u.kind.value; }
    if u.isReplied.Some? { msg.isReplied := u.isReplied.value; }
    if u.isRepliedAll.Some? { msg.isRepliedAll := u.isRepliedAll.value; }
    if u.isForwarded.Some? { msg.isForwarded := u.isForwarded.value; }
  }

  /** The map the delta branch of `Patch` edits and then lists. */
  method Relabel(labelIDs: LabelSlice, added: array<LabelID>, removed: array<LabelID>) returns (r: array<LabelID>)
    ensures fresh(r) && NoDuplicates(r)
    ensures Elements(r) == Apply(Elements(labelIDs), Delta(Elements(added), Elements(removed)))
  {
    var labels := BuildLabelsSet(labelIDs);
    ghost var start := labels;
    for i := 0 to added.Length
      invariant labels == start + set x | x in added[..i]
    {
      labels := labels + {added[i]};
      assert added[..i + 1] == added[..i] + [added[i]];
    }
    assert added[..added.Length] == added[..];
    ghost var full := labels;
    for i := 0 to removed.Length
      invariant labels == full - set x | x in removed[..i]
    {
      labels := labels - {removed[i]};
      assert removed[..i + 1] == removed[..i] + [removed[i]];
    }
    assert removed[..removed.Length] == removed[..];
    var listed := AppendMissing(labels, {});
    if listed == null {
      r := new LabelID[0];
    } else {
      r := listed;
    }
  }

  /**
    Only the fields of `msg` are written: no slice is, so every other message
    keeps its labels even when it shares a slice with this one or with the update.
   */
  method Patch(u: Update, msg: Message)
    modifies msg
    ensures Elements(msg.labelIDs) == Patched(old(ChangeOf(u)), old(Elements(msg.labelIDs)))
    ensures u.labelIDs != null ==> msg.labelIDs == u.labelIDs
    ensures u.labelIDs == null && IsPair(old(ChangeOf(u))) ==> fresh(msg.labelIDs) && NoDuplicates(msg.labelIDs)
    ensures u.labelIDs == null && !IsPair(old(ChangeOf(u))) ==> msg.labelIDs == old(msg.labelIDs)
    ensures forall other: Message :: old(allocated(other)) && other != msg ==>
              other.labelIDs == old(other.labelIDs) && Elements(other.labelIDs) == old(Elements(other.labelIDs))
    ensures msg.time == u.time
    ensures msg.unread == if u.unread.Some? then u.unread.value else old(msg.unread)
    ensures msg.kind == if u.kind.Some? then u.kind.value else old(msg.kind)
    ensures msg.isReplied == if u.isReplied.Some? then u.isReplied.value else old(msg.isReplied)
    ensures msg.isRepliedAll == if u.isRepliedAll.Some? then u.isRepliedAll.value else old(msg.isRepliedAll)
    ensures msg.isForwarded == if u.isForwarded.Some? then u.isForwarded.value else old(msg.isForwarded)
  {
    PatchScalars(u, msg);
    if u.labelIDs != null {
      msg.labelIDs := u.labelIDs;
    } else if u.added != null && u.removed != null {
      var labels := Relabel(msg.labelIDs, u.added, u.removed);
      msg.labelIDs := labels;
    }
  }

  // ---- the algebra ----

  /**
    The delta DiffLabelIDs reports describes what Patch does, exactly unless an
    update carries all three slices and they contradict each other.
   */
  lemma DiffDescribesPatch(c: Change, labels: set<LabelID>)
    ensures Patched(c, labels) == Apply(labels, Diffed(c, labels)) <==>
            !(c.full.Some? && IsPair(c)) || c.full.value == Apply(labels, Delta(c.added.value, c.removed.value))
  {
    if c.full.Some? && !IsPair(c) {
      assert Apply(labels, Diffed(c, labels)) == c.full.value;
    } else if c.full.None? && !IsPair(c) {
      assert Apply(labels, Diffed(c, labels)) == labels;
    }
  }

  /**
    What the two operations make of each kind of update: Patch takes the full list
    first, then the pair; DiffLabelIDs takes the pair first; half a pair counts for
    nothing, and without either nothing changes.
   */
  lemma UpdateMeans(c: Change, labels: set<LabelID>, x: LabelID)
    ensures x in Patched(c, labels) <==>
            match c
            case Change(Some(full), _, _) => x in full
            case Change(None, Some(added), Some(removed)) => (x in labels || x in added) && x !in removed
            case _ => x in labels
    ensures x in Diffed(c, labels).added <==>
            match c
            case Change(_, Some(added), Some(_)) => x in added
            case Change(Some(full), _, _) => x in full && x !in labels
            case _ => false
    ensures x in Diffed(c, labels).removed <==>
            match c
            case Change(_, Some(_), Some(removed)) => x in removed
            case Change(Some(full), _, _) => x in labels && x !in full
            case _ => false
  {}

  ghost predicate AlwaysDescribes(c: Change) {
    forall labels :: Patched(c, labels) == Apply(labels, Diffed(c, labels))
  }

  lemma {:induction false} LongerThanAll(listed: set<LabelID>) returns (n: nat)
    ensures forall x :: x in listed ==> |x| < n
    decreases listed
  {
    if listed == {} {
      n := 0;
    } else {
      var y :| y in listed;
      var m := LongerThanAll(listed - {y});
      n := if |y| < m then m else |y| + 1;
    }
  }

  lemma FreshLabel(listed: set<LabelID>) returns (x: LabelID)
    ensures x !in listed
  {
    var n := LongerThanAll(listed);
    x := seq(n, _ => 'x');
  }

  /** For every message the two agree exactly unless all three slices are present: some message tells any three apart. */
  lemma AlwaysDescribesIff(c: Change)
    ensures AlwaysDescribes(c) <==> !(c.full.Some? && IsPair(c))
  {
    if c.full.Some? && IsPair(c) {
      var x := FreshLabel(c.full.value + c.removed.value);
      assert x in Apply({x}, Diffed(c, {x})) && x !in Patched(c, {x});
    } else {
      forall labels ensures Patched(c, labels) == Apply(labels, Diffed(c, labels)) {
        DiffDescribesPatch(c, labels);
      }
    }
  }

  /** Three contradictory slices: DiffLabelIDs reports one change and Patch makes another. */
  lemma ThreeSlicesCanDisagree()
    ensures var c := Change(Some({"a"}), Some({"b"}), Some({}));
            Patched(c, {}) == {"a"} && Apply({}, Diffed(c, {})) == {"b"}
  {}

  /** A full list, unless a pair takes precedence, is reported as the smallest delta with the effect of Patch. */
  lemma FullListDeltaIsMinimal(c: Change, labels: set<LabelID>, other: Delta)
    requires c.full.Some? && !IsPair(c)
    ensures var d := Diffed(c, labels);
            && d.added !! d.removed
            && d.added !! labels && d.removed <= labels
            && (Apply(labels, other) == Patched(c, labels) ==> d.added <= other.added && d.removed <= other.removed)
  {
    var d := Diffed(c, labels);
    if Apply(labels, other) == c.full.value {
      forall x | x in d.removed
        ensures x in other.removed
      {
        assert x !in Apply(labels, other);
      }
    }
  }

  function Then(d: Delta, e: Delta): Delta {
    Delta(d.added + e.added, (d.removed - e.added) + e.removed)
  }

  lemma ThenApplies(labels: set<LabelID>, d: Delta, e: Delta)
    ensures Apply(Apply(labels, d), e) == Apply(labels, Then(d, e))
  {}

  /** What any run of updates amounts to: a last full list, if there was one, then one delta. */
  datatype Summary = Summary(base: Option<set<LabelID>>, delta: Delta)

  function Extend(s: Summary, c: Change): Summary {
    if c.full.Some? then Summary(c.full, Delta({}, {}))
    else if IsPair(c) then s.(delta := Then(s.delta, Delta(c.added.value, c.removed.value)))
    else s
  }

  function Summarize(changes: seq<Change>): Summary {
    if changes == [] then Summary(None, Delta({}, {}))
    else Extend(Summarize(changes[..|changes| - 1]), changes[|changes| - 1])
  }

  function PatchAll(labels: set<LabelID>, changes: seq<Change>): set<LabelID>
    decreases |changes|
  {
    if changes == [] then labels else PatchAll(Patched(changes[0], labels), changes[1..])
  }

  lemma {:induction false} PatchAllSnoc(labels: set<LabelID>, changes: seq<Change>, c: Change)
    ensures PatchAll(labels, changes + [c]) == Patched(c, PatchAll(labels, changes))
    decreases |changes|
  {
    if changes == [] {
      assert [c][1..] == [];
    } else {
      PatchAllSnoc(Patched(changes[0], labels), changes[1..], c);
      assert (changes + [c])[1..] == changes[1..] + [c];
    }
  }

  /** Patching through any run of updates equals applying its summary once. */
  lemma {:induction false} RunsCollapse(labels: set<LabelID>, changes: seq<Change>)
    ensures var s := Summarize(changes);
            PatchAll(labels, changes) == Apply(if s.base.Some? then s.base.value else labels, s.delta)
  {
    if changes == [] {
      assert Apply(labels, Delta({}, {})) == labels;
    } else {
      var init, c := changes[..|changes| - 1], changes[|changes| - 1];
      RunsCollapse(labels, init);
      PatchAllSnoc(labels, init, c);
      assert init + [c] == changes;
      var s := Summarize(init);
      if c.full.Some? {
        assert Apply(c.full.value, Delta({}, {})) == c.full.value;
      } else if IsPair(c) {
        ThenApplies(if s.base.Some? then s.base.value else labels, s.delta, Delta(c.added.value, c.removed.value));
      }
    }
  }
}
