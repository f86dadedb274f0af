/**
  Saving the cache while it changes. Any number of mutators change entries and then count their
  changes; a save reads the counter, then the entries one by one, then writes the file, and only
  then moves the watermark. Some changes are never counted: an eviction comes after the mark of the
  call that causes it, and a failed probe or a longer lifetime is not marked at all. Steps of all of
  them interleave freely; saves exclude each other.
 */
module Persist {
  import opened Wire

  type Key = string
  type Thread = nat

  /** The version of an entry: how often it has been changed or removed. */
  datatype Change = Change(key: Key, version: nat)

  /** A pass over the entries visits every key there was at its start, and maybe newer ones. */
  datatype Saver =
    | Idle
    | Reading(snap: nat, todo: set<Key>, got: map<Key, nat>)
    | Wrote(snap: nat)

  /** The counter of changes is the number of marks, each for what its thread did before; persisted is the watermark. */
  datatype Shared = Shared(
    versions: map<Key, nat>,
    pending: map<Thread, seq<Change>>,
    marks: seq<seq<Change>>,
    persisted: nat,
    saver: Saver,
    file: map<Key, nat>)
  {
    function Version(k: Key): nat { if k in versions then versions[k] else 0 }

    function InFile(k: Key): nat { if k in file then file[k] else 0 }

    function Pending(t: Thread): seq<Change> { if t in pending then pending[t] else [] }

    predicate IsDirty() { |marks| > persisted }

    predicate Holds(c: Change) { InFile(c.key) >= c.version }

    /** What the changes under the i-th mark left is in the file, or something newer is. */
    predicate Covered(i: nat)
      requires i < |marks|
    {
      forall j :: 0 <= j < |marks[i]| ==> Holds(marks[i][j])
    }
  }

  const START := Shared(map[], map[], [], 0, Idle, map[])

  /**
    A save may start at any time: its check for changes is made before it waits for the others. An
    error while writing ends it; an error of the final rename goes unnoticed.
   */
  datatype Event =
    | Mutate(thread: Thread, key: Key)
    | MarkDirty(thread: Thread)
    | Unmarked(key: Key)
    | SnapshotDirty
    | ReadEntry(key: Key)
    | WriteFile
    | WriteFails
    | RenameFails
    | PersistSnapshot

  predicate Enabled(s: Shared, e: Event) {
    match e
    case Mutate(_, _) => true
    case MarkDirty(_) => true
    case Unmarked(_) => true
    case SnapshotDirty => s.saver.Idle?
    case ReadEntry(k) => s.saver.Reading? && k !in s.saver.got
    case WriteFile => s.saver.Reading? && s.saver.todo <= s.saver.got.Keys
    case WriteFails => s.saver.Reading?
    case RenameFails => s.saver.Reading? && s.saver.todo <= s.saver.got.Keys
    case PersistSnapshot => s.saver.Wrote?
  }

  /** A step that is not enabled waits. */
  function Step(s: Shared, e: Event): Shared {
    if !Enabled(s, e) then s else
    match e
    case Mutate(t, k) =>
      var v := s.Version(k) + 1;
      s.(versions := s.versions[k := v], pending := s.pending[t := s.Pending(t) + [Change(k, v)]])
    case MarkDirty(t) => s.(marks := s.marks + [s.Pending(t)], pending := s.pending - {t})
    case Unmarked(k) => s.(versions := s.versions[k := s.Version(k) + 1])
    case SnapshotDirty => s.(saver := Reading(|s.marks|, s.versions.Keys, map[]))
    case ReadEntry(k) => s.(saver := s.saver.(got := s.saver.got[k := s.Version(k)]))
    case WriteFile => s.(file := s.saver.got, saver := Wrote(s.saver.snap))
    case WriteFails => s.(saver := Idle)
    case RenameFails => s.(saver := Wrote(s.saver.snap))
    case PersistSnapshot => s.(persisted := s.saver.snap, saver := Idle)
  }

  function Run(events: seq<Event>): Shared {
    if events == [] then START else Step(Run(events[..|events| - 1]), events[|events| - 1])
  }

  // ---------------------------------------------------------------- the invariant

  /** Changes are marked after they were made. */
  predicate Made(s: Shared, c: Change) { 0 < c.version <= s.Version(c.key) }

  predicate AllMade(s: Shared, cs: seq<Change>) { forall j :: 0 <= j < |cs| ==> Made(s, cs[j]) }

  predicate Reads(s: Shared, k: Key, v: nat) { s.InFile(k) <= v <= s.Version(k) }

  predicate CoveredTo(s: Shared, n: nat) { n <= |s.marks| && forall i :: 0 <= i < n ==> s.Covered(i) }

  predicate ReadOne(c: Change, todo: set<Key>, got: map<Key, nat>) {
    if c.key in got then got[c.key] >= c.version else c.key in todo
  }

  predicate ReadAll(cs: seq<Change>, todo: set<Key>, got: map<Key, nat>) {
    forall j :: 0 <= j < |cs| ==> ReadOne(cs[j], todo, got)
  }

  /** What has been read covers the counted changes, and a key of theirs not read yet is still to be read. */
  predicate ReadTo(s: Shared, n: nat, todo: set<Key>, got: map<Key, nat>) {
    n <= |s.marks| && forall i :: 0 <= i < n ==> ReadAll(s.marks[i], todo, got)
  }

  ghost predicate Inv(s: Shared) {
    && (forall i :: 0 <= i < |s.marks| ==> AllMade(s, s.marks[i]))
    && (forall t :: t in s.pending ==> AllMade(s, s.pending[t]))
    && (forall k :: k in s.file ==> Reads(s, k, s.file[k]))
    && CoveredTo(s, s.persisted)
    && match s.saver
       case Idle => true
       case Reading(snap, todo, got) =>
         && s.persisted <= snap
         && (forall k :: k in got ==> Reads(s, k, got[k]))
         && (forall k :: k in s.file && s.file[k] > 0 ==> k in todo)
         && ReadTo(s, snap, todo, got)
       case Wrote(snap) => s.persisted <= snap && CoveredTo(s, snap)
  }

  /** Entries only get newer: everything said of the file and of what was read stays true. */
  lemma NewerKeeps(s: Shared, k: Key, s': Shared)
    requires Inv(s) && s' == s.(versions := s.versions[k := s.Version(k) + 1])
    ensures Inv(s')
  {
    assert forall j :: s'.InFile(j) == s.InFile(j) && s'.Version(j) >= s.Version(j);
    assert forall c :: Made(s, c) ==> Made(s', c);
    assert forall cs :: AllMade(s, cs) ==> AllMade(s', cs);
    assert forall i :: 0 <= i < |s.marks| ==> s'.Covered(i) == s.Covered(i);
  }

  lemma PendingKeeps(s: Shared, t: Thread, c: Change)
    requires Inv(s) && Made(s, c)
    ensures Inv(s.(pending := s.pending[t := s.Pending(t) + [c]]))
  {
    var s' := s.(pending := s.pending[t := s.Pending(t) + [c]]);
    SameFile(s, s');
    assert AllMade(s', s.Pending(t) + [c]);
  }

  lemma SameFile(s: Shared, s': Shared)
    requires s'.versions == s.versions && s'.file == s.file
    ensures forall c :: Made(s', c) == Made(s, c)
    ensures forall cs :: AllMade(s', cs) == AllMade(s, cs)
    ensures forall k, v :: Reads(s', k, v) == Reads(s, k, v)
    ensures s.marks <= s'.marks ==> forall i :: 0 <= i < |s.marks| ==> s'.Covered(i) == s.Covered(i)
  {
    assert forall k :: s'.Version(k) == s.Version(k) && s'.InFile(k) == s.InFile(k);
    assert forall c :: Made(s', c) == Made(s, c);
    if s.marks <= s'.marks {
      forall i | 0 <= i < |s.marks| ensures s'.Covered(i) == s.Covered(i) {
        assert s'.marks[i] == s.marks[i];
        assert forall c :: s'.Holds(c) == s.Holds(c);
      }
    }
  }

  lemma MutateKeeps(s: Shared, t: Thread, k: Key)
    requires Inv(s)
    ensures Inv(Step(s, Mutate(t, k)))
  {
    var s1 := s.(versions := s.versions[k := s.Version(k) + 1]);
    NewerKeeps(s, k, s1);
    PendingKeeps(s1, t, Change(k, s.Version(k) + 1));
  }

  lemma MarkKeeps(s: Shared, t: Thread)
    requires Inv(s)
    ensures Inv(Step(s, MarkDirty(t)))
  {
    var s' := Step(s, MarkDirty(t));
    SameFile(s, s');
    assert AllMade(s, s.Pending(t));
    assert forall i :: 0 <= i < |s.marks| ==> s'.marks[i] == s.marks[i];
  }

  lemma ReadKeeps(s: Shared, k: Key)
    requires Inv(s)
    ensures Inv(Step(s, ReadEntry(k)))
  {
    if Enabled(s, ReadEntry(k)) {
      var s' := Step(s, ReadEntry(k));
      SameFile(s, s');
      forall i | 0 <= i < s.saver.snap ensures ReadAll(s.marks[i], s.saver.todo, s'.saver.got) {
        assert AllMade(s, s.marks[i]) && ReadAll(s.marks[i], s.saver.todo, s.saver.got);
        forall j | 0 <= j < |s.marks[i]| ensures ReadOne(s.marks[i][j], s.saver.todo, s'.saver.got) {
          assert Made(s, s.marks[i][j]) && ReadOne(s.marks[i][j], s.saver.todo, s.saver.got);
        }
      }
    }
  }

  lemma WriteKeeps(s: Shared)
    requires Inv(s) && Enabled(s, WriteFile)
    ensures Inv(Step(s, WriteFile))
  {
    var s' := Step(s, WriteFile);
    assert forall j :: s'.Version(j) == s.Version(j);
    assert forall c :: Made(s', c) == Made(s, c);
    forall i | 0 <= i < s.saver.snap ensures s'.Covered(i) {
      assert ReadAll(s.marks[i], s.saver.todo, s.saver.got);
      forall j | 0 <= j < |s.marks[i]| ensures s'.Holds(s.marks[i][j]) {
        assert ReadOne(s.marks[i][j], s.saver.todo, s.saver.got);
      }
    }
    forall i | 0 <= i < |s.marks| ensures AllMade(s', s.marks[i]) {
      assert AllMade(s, s.marks[i]);
    }
    forall t | t in s.pending ensures AllMade(s', s.pending[t]) {
      assert AllMade(s, s.pending[t]);
    }
  }

  lemma SnapshotKeeps(s: Shared)
    requires Inv(s)
    ensures Inv(Step(s, SnapshotDirty))
  {
    if Enabled(s, SnapshotDirty) {
      var s' := Step(s, SnapshotDirty);
      SameFile(s, s');
      forall i | 0 <= i < |s.marks| ensures ReadAll(s.marks[i], s.versions.Keys, map[]) {
        assert AllMade(s, s.marks[i]);
        forall j | 0 <= j < |s.marks[i]| ensures ReadOne(s.marks[i][j], s.versions.Keys, map[]) {
          assert Made(s, s.marks[i][j]);
        }
      }
      assert forall k :: k in s.file ==> Reads(s, k, s.file[k]);
    }
  }

  lemma FinishKeeps(s: Shared, e: Event)
    requires Inv(s) && (e.WriteFails? || e.PersistSnapshot?)
    ensures Inv(Step(s, e))
  {
    SameFile(s, Step(s, e));
  }

  lemma StepKeeps(s: Shared, e: Event)
    requires Inv(s) && e != RenameFails
    ensures Inv(Step(s, e))
  {
    match e
    case Mutate(t, k) => MutateKeeps(s, t, k);
    case MarkDirty(t) => MarkKeeps(s, t);
    case Unmarked(k) => NewerKeeps(s, k, Step(s, e));
    case ReadEntry(k) => ReadKeeps(s, k);
    case WriteFile => if Enabled(s, e) { WriteKeeps(s); }
    case SnapshotDirty => SnapshotKeeps(s);
    case WriteFails => FinishKeeps(s, e);
    case PersistSnapshot => FinishKeeps(s, e);
  }

  predicate RenamesSucceed(events: seq<Event>) { forall i :: 0 <= i < |events| ==> events[i] != RenameFails }

  lemma {:induction false} RunKeeps(events: seq<Event>)
    requires RenamesSucceed(events)
    ensures Inv(Run(events))
  {
    if events != [] {
      RunKeeps(events[..|events| - 1]);
      StepKeeps(Run(events[..|events| - 1]), events[|events| - 1]);
    }
  }

  /**
    In every interleaving whose renames succeed, every change up to the watermark is in the last
    file, and while a marked change is not, the cache counts as dirty.
   */
  lemma NothingIsLost(events: seq<Event>, i: nat)
    requires RenamesSucceed(events) && i < |Run(events).marks|
    ensures i < Run(events).persisted ==> Run(events).Covered(i)
    ensures !Run(events).Covered(i) ==> Run(events).IsDirty()
  {
    RunKeeps(events);
  }

  /** A rename that fails unnoticed: a change that was in no file still is in none, but counts as saved. */
  lemma RenameFailureLoses(s: Shared, i: nat)
    requires Enabled(s, RenameFails) && i < s.saver.snap <= |s.marks| && !s.Covered(i)
    ensures var s' := Step(Step(s, RenameFails), PersistSnapshot);
      i < s'.persisted && |s'.marks| == |s.marks| && !s'.Covered(i)
  {
    SameFile(s, Step(Step(s, RenameFails), PersistSnapshot));
  }

  /** One change, counted. */
  lemma FirstChange(k: Key)
    ensures Step(Step(START, Mutate(0, k)), MarkDirty(0)) == START.(versions := map[k := 1], marks := [[Change(k, 1)]])
  {
    assert [] + [Change(k, 1)] == [Change(k, 1)];
    var s := Step(START, Mutate(0, k));
    assert s.pending == map[0 := [Change(k, 1)]];
    assert s.pending - {0} == map[];
  }

  /** It takes one change and one save. */
  lemma RenameFailureHappens()
    ensures var s1 := Step(Step(START, Mutate(0, "k")), MarkDirty(0));
      var s := Step(Step(Step(Step(s1, SnapshotDirty), ReadEntry("k")), RenameFails), PersistSnapshot);
      s.persisted == 1 && |s.marks| == 1 && !s.Covered(0) && !s.IsDirty()
  {
    FirstChange("k");
    var s2 := Step(Step(START, Mutate(0, "k")), MarkDirty(0));
    var s3 := Step(s2, SnapshotDirty);
    var s4 := Step(s3, ReadEntry("k"));
    var s5 := Step(s4, RenameFails);
    assert s5.saver == Wrote(1) && s5.file == map[];
    assert !s5.Holds(s5.marks[0][0]);
  }

  // ---------------------------------------------------------------- when a clean cache is a saved one

  /**
    Whether a change that nobody counts has happened to an entry since it was read for the present
    file, and since it was last read at all.
   */
  datatype Lag = Lag(file: bool, read: bool)

  function LagStep(s: Shared, l: Lag, e: Event, k: Key): Lag {
    if !Enabled(s, e) then l else
    match e
    case Unmarked(j) => if j == k then Lag(true, true) else l
    case ReadEntry(j) => if j == k then l.(read := false) else l
    case WriteFile => l.(file := l.read)
    case _ => l
  }

  function LagOf(events: seq<Event>, k: Key): Lag {
    if events == [] then Lag(false, false)
    else LagStep(Run(events[..|events| - 1]), LagOf(events[..|events| - 1], k), events[|events| - 1], k)
  }

  predicate Counted(s: Shared, c: Change) {
    || (exists i :: 0 <= i < |s.marks| && c in s.marks[i])
    || (exists t :: t in s.pending && c in s.pending[t])
  }

  /** A value read lags behind exactly by an uncounted change: other newer versions are counted, or about to be. */
  predicate Explained(s: Shared, k: Key, v: nat, lag: bool) {
    if lag then v < s.Version(k) else v < s.Version(k) ==> Counted(s, Change(k, s.Version(k)))
  }

  function Got(got: map<Key, nat>, k: Key): nat { if k in got then got[k] else 0 }

  predicate LagOk(s: Shared, l: Lag, k: Key) {
    && Explained(s, k, s.InFile(k), l.file)
    && (l.read ==> s.Version(k) > 0)
    && (s.saver.Reading? && (k in s.saver.got || k !in s.saver.todo) ==> Explained(s, k, Got(s.saver.got, k), l.read))
  }

  lemma CountedStays(s: Shared, e: Event, c: Change)
    requires Counted(s, c)
    ensures Counted(Step(s, e), c)
  {
    var s' := Step(s, e);
    if i :| 0 <= i < |s.marks| && c in s.marks[i] {
      assert s'.marks[i] == s.marks[i];
    } else {
      var t :| t in s.pending && c in s.pending[t];
      if e == MarkDirty(t) {
        assert s'.marks[|s.marks|] == s.pending[t];
      } else {
        assert t in s'.pending && c in s'.pending[t];
      }
    }
  }

  lemma ExplainedStays(s: Shared, e: Event, k: Key, v: nat, lag: bool)
    requires Explained(s, k, v, lag) && e != Unmarked(k)
    ensures Explained(Step(s, e), k, v, lag)
  {
    var s' := Step(s, e);
    if Counted(s, Change(k, s.Version(k))) { CountedStays(s, e, Change(k, s.Version(k))); }
    if e.Mutate? && e.key == k {
      assert Change(k, s'.Version(k)) in s'.pending[e.thread];
    } else {
      assert s'.Version(k) == s.Version(k);
    }
  }

  lemma LagStepKeeps(s: Shared, l: Lag, e: Event, k: Key)
    requires Inv(s) && LagOk(s, l, k) && e != RenameFails
    ensures LagOk(Step(s, e), LagStep(s, l, e, k), k)
  {
    var s', l' := Step(s, e), LagStep(s, l, e, k);
    if e == Unmarked(k) {
      assert s.InFile(k) <= s.Version(k) by { if k in s.file { assert Reads(s, k, s.file[k]); } }
      assert s.saver.Reading? && k in s.saver.got ==> Reads(s, k, s.saver.got[k]);
    } else {
      ExplainedStays(s, e, k, s.InFile(k), l.file);
      if s.saver.Reading? && (k in s.saver.got || k !in s.saver.todo) {
        ExplainedStays(s, e, k, Got(s.saver.got, k), l.read);
      }
      assert s'.Version(k) >= s.Version(k);
    }
  }

  lemma {:induction false} RunLag(events: seq<Event>, k: Key)
    requires RenamesSucceed(events)
    ensures LagOk(Run(events), LagOf(events, k), k)
  {
    if events != [] {
      var before := events[..|events| - 1];
      RunLag(before, k);
      RunKeeps(before);
      LagStepKeeps(Run(before), LagOf(before, k), events[|events| - 1], k);
    }
  }

  /** No mutator is between changing a key and counting the change. */
  predicate Settled(s: Shared, k: Key) {
    forall t, c :: t in s.pending && c in s.pending[t] ==> c.key != k
  }

  /**
    In every interleaving whose renames succeed: when the cache is not dirty and no counted change of
    a key is under way, the file holds the key as it is exactly when no uncounted change of it has
    happened since it was read for that file.
   */
  lemma CleanMeansSaved(events: seq<Event>, k: Key)
    requires RenamesSucceed(events) && !Run(events).IsDirty() && Settled(Run(events), k)
    ensures Run(events).InFile(k) == Run(events).Version(k) <==> !LagOf(events, k).file
  {
    RunKeeps(events);
    RunLag(events, k);
    var s := Run(events);
    var c := Change(k, s.Version(k));
    assert k in s.file ==> Reads(s, k, s.file[k]);
    if i :| 0 <= i < |s.marks| && c in s.marks[i] {
      assert s.Covered(i);
      var j :| 0 <= j < |s.marks[i]| && s.marks[i][j] == c;
      assert s.Holds(s.marks[i][j]);
    }
  }

  /** An uncounted change of a saved key leaves a cache that is not dirty and differs from its file. */
  lemma UnmarkedGoesUnnoticed(s: Shared, k: Key)
    requires !s.IsDirty() && s.InFile(k) == s.Version(k)
    ensures var s' := Step(s, Unmarked(k)); !s'.IsDirty() && s'.InFile(k) != s'.Version(k)
  {
  }

  /**
    An eviction behind the mark: a key is stored at capacity and counted, another thread saves
    everything, and only then the victim goes. Nothing is dirty, and the file still holds the victim.
   */
  lemma EvictionAfterSave()
    ensures var s1 := Step(Step(START, Mutate(0, "old")), MarkDirty(0));
      var s2 := Step(Step(s1, Mutate(1, "new")), MarkDirty(1));
      var s3 := Step(Step(Step(s2, SnapshotDirty), ReadEntry("old")), ReadEntry("new"));
      var s := Step(Step(Step(s3, WriteFile), PersistSnapshot), Unmarked("old"));
      !s.IsDirty() && Settled(s, "old") && s.InFile("old") == 1 && s.Version("old") == 2
  {
    FirstChange("old");
    var s1 := START.(versions := map["old" := 1], marks := [[Change("old", 1)]]);
    var m := Step(s1, Mutate(1, "new"));
    assert m.versions == map["old" := 1, "new" := 1] && m.pending.Keys == {1};
    var s2 := Step(m, MarkDirty(1));
    assert |s2.marks| == 2 && s2.pending == map[] && s2.versions.Keys == {"old", "new"};
    AllSaved(s2);
  }

  lemma AllSaved(s: Shared)
    requires s.versions == map["old" := 1, "new" := 1] && s.saver == Idle && |s.marks| == 2 && s.pending == map[]
    ensures var s3 := Step(Step(Step(s, SnapshotDirty), ReadEntry("old")), ReadEntry("new"));
      var s' := Step(Step(Step(s3, WriteFile), PersistSnapshot), Unmarked("old"));
      !s'.IsDirty() && Settled(s', "old") && s'.InFile("old") == 1 && s'.Version("old") == 2
  {
    var s3 := Step(Step(Step(s, SnapshotDirty), ReadEntry("old")), ReadEntry("new"));
    assert s3.saver == Reading(2, {"old", "new"}, map["old" := 1, "new" := 1]);
  }
}
