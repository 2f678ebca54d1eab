/** VersionSet::Builder: many edits folded into one version, against a version for every edit. */
module Manifest {
  import opened Keys
  import opened Versions

  /** The file changes of a VersionEdit: levels and numbers to delete, levels and files to add. */
  datatype Edit = Edit(deleted: set<(nat, nat)>, added: seq<(nat, File)>) {
    ghost predicate Valid() {
      && (forall d :: d in deleted ==> d.0 < NUM_LEVELS)
      && (forall i :: 0 <= i < |added| ==> added[i].0 < NUM_LEVELS)
      && forall i, j :: 0 <= i < j < |added| && added[i].0 == added[j].0 ==> added[i].1.number != added[j].1.number
    }
  }

  // ------------------------------------------------------------------- order

  lemma BySmallestIsOrder(a: File, b: File, c: File)
    ensures BySmallest(a, b) && BySmallest(b, c) ==> BySmallest(a, c)
    ensures !(BySmallest(a, b) && BySmallest(b, a))
    ensures a.number != b.number ==> BySmallest(a, b) || BySmallest(b, a)
  {}

  function SetOf(files: seq<File>): set<File> { set f | f in files }

  /** A level is determined by its files: there is one way to list them in order. */
  lemma {:induction false} ListIsUnique(a: seq<File>, b: seq<File>)
    requires InOrder(a) && InOrder(b) && SetOf(a) == SetOf(b)
    ensures a == b
    decreases |a|
  {
    if a == [] {
      FirstIsIn(b);
    } else {
      assert a[0] in SetOf(a);
      FirstIsLeast(a, b);
      assert forall f :: f in SetOf(a[1..]) <==> f in SetOf(a) && f != a[0] by { RestOf(a); }
      assert forall f :: f in SetOf(b[1..]) <==> f in SetOf(b) && f != b[0] by { RestOf(b); }
      ListIsUnique(a[1..], b[1..]);
    }
  }

  lemma FirstIsIn(a: seq<File>)
    ensures a == [] || a[0] in SetOf(a)
  {}

  lemma RestOf(a: seq<File>)
    requires InOrder(a) && a != []
    ensures forall f :: f in SetOf(a[1..]) <==> f in SetOf(a) && f != a[0]
  {
    forall i | 1 <= i < |a|
      ensures a[i] != a[0]
    {
      BySmallestIsOrder(a[0], a[i], a[0]);
    }
    assert a == [a[0]] + a[1..];
  }

  lemma FirstIsLeast(a: seq<File>, b: seq<File>)
    requires InOrder(a) && InOrder(b) && SetOf(a) == SetOf(b) && a != []
    ensures b != [] && a[0] == b[0]
  {
    assert a[0] in SetOf(b);
    var i: nat :| i < |b| && b[i] == a[0];
    assert b[0] in SetOf(a);
    var j: nat :| j < |a| && a[j] == b[0];
    BySmallestIsOrder(a[0], b[0], a[0]);
  }

  // ------------------------------------------------------------- what edits mean

  ghost function AddedAt(e: Edit, level: nat): set<File> {
    set i | 0 <= i < |e.added| && e.added[i].0 == level :: e.added[i].1
  }

  ghost function Numbers(files: set<File>): set<nat> { set f | f in files :: f.number }

  /** One edit on the files of a level: deletions first. */
  ghost function Edited(files: set<File>, e: Edit, level: nat): set<File> {
    (set f | f in files && (level, f.number) !in e.deleted) + AddedAt(e, level)
  }

  ghost function EditedAll(files: set<File>, edits: seq<Edit>, level: nat): set<File> {
    if edits == [] then files else Edited(EditedAll(files, edits[..|edits| - 1], level), edits[|edits| - 1], level)
  }

  /** Every file that was ever on the level. */
  ghost function EverAt(files: set<File>, edits: seq<Edit>, level: nat): set<File> {
    if edits == [] then files else EverAt(files, edits[..|edits| - 1], level) + AddedAt(edits[|edits| - 1], level)
  }

  /** No file number is added to a level twice, nor to one that starts with it. */
  ghost predicate AddedOnce(files: set<File>, edits: seq<Edit>, level: nat) {
    && (forall f, g :: f in EverAt(files, edits, level) && g in EverAt(files, edits, level) && f.number == g.number ==> f == g)
    && forall k :: 0 <= k < |edits| ==> Numbers(AddedAt(edits[k], level)) !! Numbers(EverAt(files, edits[..k], level))
  }

  /** The deletions a builder still holds after the edits: a later addition revokes one. */
  ghost function DeletedAll(edits: seq<Edit>, level: nat): set<nat> {
    if edits == [] then {}
    else
      var e := edits[|edits| - 1];
      DeletedAll(edits[..|edits| - 1], level) + DeletedAt(e, level) - Numbers(AddedAt(e, level))
  }

  ghost function DeletedAt(e: Edit, level: nat): set<nat> {
    set d | d in e.deleted && d.0 == level :: d.1
  }

  ghost function Kept(files: set<File>, deleted: set<nat>): set<File> {
    set f | f in files && f.number !in deleted
  }

  /** Folding all edits and dropping what is deleted at the end is the same as editing one version after another. */
  lemma {:induction false} FoldIsStepwise(files: set<File>, edits: seq<Edit>, level: nat)
    requires AddedOnce(files, edits, level)
    ensures Kept(EverAt(files, edits, level), DeletedAll(edits, level)) == EditedAll(files, edits, level)
  {
    if edits != [] {
      var front, e := edits[..|edits| - 1], edits[|edits| - 1];
      OnceBefore(files, edits, level);
      FoldIsStepwise(files, front, level);
      OneMoreEdit(EverAt(files, front, level), DeletedAll(front, level), e, level);
    }
  }

  lemma OnceBefore(files: set<File>, edits: seq<Edit>, level: nat)
    requires AddedOnce(files, edits, level) && edits != []
    ensures AddedOnce(files, edits[..|edits| - 1], level)
    ensures Numbers(AddedAt(edits[|edits| - 1], level)) !! Numbers(EverAt(files, edits[..|edits| - 1], level))
  {
    var front := edits[..|edits| - 1];
    forall k | 0 <= k < |front|
      ensures Numbers(AddedAt(front[k], level)) !! Numbers(EverAt(files, front[..k], level))
    {
      assert front[..k] == edits[..k];
    }
  }

  lemma OneMoreEdit(ever: set<File>, deleted: set<nat>, e: Edit, level: nat)
    requires Numbers(AddedAt(e, level)) !! Numbers(ever)
    ensures Kept(ever + AddedAt(e, level), deleted + DeletedAt(e, level) - Numbers(AddedAt(e, level)))
      == Edited(Kept(ever, deleted), e, level)
  {
    var added := AddedAt(e, level);
    forall f | f in ever
      ensures f.number in Numbers(ever) && f.number !in Numbers(added)
      ensures f.number in DeletedAt(e, level) <==> (level, f.number) in e.deleted
    {
      assert f.number in Numbers(ever);
      if (level, f.number) in e.deleted {
        var d := (level, f.number);
        assert d in e.deleted && d.0 == level;
      }
    }
    forall f | f in added
      ensures f.number in Numbers(added)
    {}
  }

  // ------------------------------------------------------------------ builder

  /** std::set::insert under BySmallestKey. */
  method InsertFile(files: seq<File>, f: File) returns (r: seq<File>)
    requires InOrder(files) && forall g :: g in files ==> g.number != f.number
    ensures InOrder(r) && SetOf(r) == SetOf(files) + {f}
  {
    var i := UpperBound(files, 0, f);
    r := files[..i] + [f] + files[i..];
    InsertKeepsOrder(files, f, i);
  }

  lemma InsertKeepsOrder(files: seq<File>, f: File, i: nat)
    requires InOrder(files) && i <= |files|
    requires forall k :: 0 <= k < i ==> BySmallest(files[k], f)
    requires forall k :: i <= k < |files| ==> BySmallest(f, files[k])
    ensures InOrder(files[..i] + [f] + files[i..]) && SetOf(files[..i] + [f] + files[i..]) == SetOf(files) + {f}
  {
    hide BySmallest;
    var r := files[..i] + [f] + files[i..];
    assert files == files[..i] + files[i..];
    forall g
      ensures g in r <==> g in files || g == f
    {}
  }

  /** std::upper_bound: the first place from `from` on whose file comes after `f`. */
  method UpperBound(files: seq<File>, from: nat, f: File) returns (i: nat)
    requires InOrder(files) && from <= |files| && forall k :: from <= k < |files| ==> files[k].number != f.number
    ensures from <= i <= |files|
    ensures forall k :: from <= k < i ==> BySmallest(files[k], f)
    ensures forall k :: i <= k < |files| ==> BySmallest(f, files[k])
  {
    var high := |files|;
    i := from;
    while i < high
      invariant from <= i <= high <= |files|
      invariant forall k :: from <= k < i ==> BySmallest(files[k], f)
      invariant forall k :: high <= k < |files| ==> BySmallest(f, files[k])
    {
      var mid := (i + high) / 2;
      if BySmallest(f, files[mid]) {
        forall k | mid <= k < |files| {
          BySmallestIsOrder(f, files[mid], files[k]);
        }
        high := mid;
      } else {
        BySmallestIsOrder(f, files[mid], f);
        forall k | from <= k <= mid {
          BySmallestIsOrder(files[k], files[mid], f);
        }
        i := mid + 1;
      }
    }
  }

  /** The first `i` additions of an edit are in. */
  ghost predicate SoFar(edit: Edit, i: nat, l: nat, deletedThen: set<nat>, addedThen: seq<File>, deleted: set<nat>, added: seq<File>)
    requires i <= |edit.added|
  {
    var part := AddedAt(Edit(edit.deleted, edit.added[..i]), l);
    InOrder(added) && SetOf(added) == SetOf(addedThen) + part && deleted == deletedThen - Numbers(part)
  }

  lemma PartOf(edit: Edit, i: nat, l: nat)
    requires i < |edit.added|
    ensures AddedAt(Edit(edit.deleted, edit.added[..i + 1]), l) ==
      AddedAt(Edit(edit.deleted, edit.added[..i]), l) + if edit.added[i].0 == l then {edit.added[i].1} else {}
  {
    var a, b := Edit(edit.deleted, edit.added[..i + 1]), Edit(edit.deleted, edit.added[..i]);
    forall f
      ensures f in AddedAt(a, l) <==> f in AddedAt(b, l) || (edit.added[i].0 == l && f == edit.added[i].1)
    {
      if f in AddedAt(a, l) {
        var k :| 0 <= k < |a.added| && a.added[k].0 == l && a.added[k].1 == f;
        if k < i {
          assert b.added[k] == a.added[k];
        }
      }
      if f in AddedAt(b, l) {
        var k :| 0 <= k < |b.added| && b.added[k].0 == l && b.added[k].1 == f;
        assert a.added[k] == b.added[k];
      }
      assert a.added[i] == edit.added[i];
    }
  }

  lemma SoFarSame(edit: Edit, i: nat, l: nat, deletedThen: set<nat>, addedThen: seq<File>, deleted: set<nat>, added: seq<File>)
    requires i < |edit.added| && edit.added[i].0 != l && SoFar(edit, i, l, deletedThen, addedThen, deleted, added)
    ensures SoFar(edit, i + 1, l, deletedThen, addedThen, deleted, added)
  {
    PartOf(edit, i, l);
  }

  lemma SoFarAdded(edit: Edit, i: nat, deletedThen: set<nat>, addedThen: seq<File>, deleted: set<nat>, added: seq<File>, files: seq<File>)
    requires i < |edit.added| && SoFar(edit, i, edit.added[i].0, deletedThen, addedThen, deleted, added)
    requires InOrder(files) && SetOf(files) == SetOf(added) + {edit.added[i].1}
    ensures SoFar(edit, i + 1, edit.added[i].0, deletedThen, addedThen, deleted - {edit.added[i].1.number}, files)
  {
    var l, f := edit.added[i].0, edit.added[i].1;
    PartOf(edit, i, l);
    NumbersGrow(AddedAt(Edit(edit.deleted, edit.added[..i]), l), f);
  }

  lemma NumbersGrow(files: set<File>, f: File)
    ensures Numbers(files + {f}) == Numbers(files) + {f.number}
  {}

  lemma IsFresh(base: set<File>, applied: seq<Edit>, edit: Edit, i: nat,
                deletedThen: set<nat>, addedThen: seq<File>, deleted: set<nat>, added: seq<File>)
    requires edit.Valid() && i < |edit.added| && AddedOnce(base, applied + [edit], edit.added[i].0)
    requires SoFar(edit, i, edit.added[i].0, deletedThen, addedThen, deleted, added)
    requires base + SetOf(addedThen) == EverAt(base, applied, edit.added[i].0)
    ensures forall g :: g in added ==> g.number != edit.added[i].1.number
  {
    var l, f := edit.added[i].0, edit.added[i].1;
    assert (applied + [edit])[..|applied|] == applied;
    assert f in AddedAt(edit, l);
    forall g | g in added
      ensures g.number != f.number
    {
      assert g in SetOf(added);
      if g in SetOf(addedThen) {
        assert g.number in Numbers(EverAt(base, applied, l)) && f.number in Numbers(AddedAt(edit, l));
      } else {
        var part := Edit(edit.deleted, edit.added[..i]);
        var k :| 0 <= k < |part.added| && part.added[k].0 == l && part.added[k].1 == g;
        assert edit.added[k] == part.added[k];
      }
    }
  }

  lemma AppliedOneMore(base: set<File>, applied: seq<Edit>, edit: Edit, l: nat,
                       deletedThen: set<nat>, addedThen: seq<File>, deleted: set<nat>, added: seq<File>)
    requires edit.Valid() && AddedOnce(base, applied + [edit], l)
    requires SoFar(edit, |edit.added|, l, deletedThen, addedThen, deleted, added)
    requires base + SetOf(addedThen) == EverAt(base, applied, l) && Numbers(base) !! Numbers(SetOf(addedThen))
    requires deletedThen == DeletedAll(applied, l) + DeletedAt(edit, l)
    ensures InOrder(added) && deleted == DeletedAll(applied + [edit], l)
    ensures base + SetOf(added) == EverAt(base, applied + [edit], l) && Numbers(base) !! Numbers(SetOf(added))
  {
    assert edit.added[..|edit.added|] == edit.added;
    var all := applied + [edit];
    assert all[..|applied|] == applied && all[|applied|] == edit;
    forall f | f in base
      ensures f.number in Numbers(EverAt(base, applied, l))
    {
      assert f in EverAt(base, applied, l);
    }
    assert Numbers(AddedAt(edit, l)) !! Numbers(EverAt(base, applied, l));
  }

  class Builder {
    const base: Version
    var deleted: seq<set<nat>>
    var added: seq<seq<File>>
    // The edits applied so far.
    ghost var applied: seq<Edit>

    ghost predicate Valid()
      reads this
    {
      && |deleted| == |added| == NUM_LEVELS
      && forall l :: 0 <= l < NUM_LEVELS ==> LevelState(l)
    }

    ghost predicate LevelState(l: nat)
      reads this
      requires l < |deleted| == |added| && l < NUM_LEVELS
    {
      && InOrder(base[l]) && InOrder(added[l]) && AddedOnce(SetOf(base[l]), applied, l)
      && deleted[l] == DeletedAll(applied, l)
      && SetOf(base[l]) + SetOf(added[l]) == EverAt(SetOf(base[l]), applied, l)
      && Numbers(SetOf(base[l])) !! Numbers(SetOf(added[l]))
    }

    constructor (base: Version)
      requires forall l :: 0 <= l < NUM_LEVELS ==> InOrder(base[l]) && DistinctNumbers(base[l])
      ensures Valid() && this.base == base && applied == []
    {
      this.base := base;
      deleted, added, applied := seq(NUM_LEVELS, _ => {}), seq(NUM_LEVELS, _ => []), [];
    }
    /** Fold one more edit in. */
    method Apply(edit: Edit)
      requires Valid() && edit.Valid()
      requires forall l :: 0 <= l < NUM_LEVELS ==> AddedOnce(SetOf(base[l]), applied + [edit], l)
      modifies this
      ensures Valid() && applied == old(applied) + [edit]
    {
      ApplyDeletions(edit);
      ghost var deleted1, added0 := deleted, added;
      forall l | 0 <= l < NUM_LEVELS
        ensures SoFar(edit, 0, l, deleted1[l], added0[l], deleted[l], added[l])
      {
        assert old(LevelState(l));
      }
      var i := 0;
      while i < |edit.added|
        invariant 0 <= i <= |edit.added| && |deleted| == |added| == NUM_LEVELS && applied == old(applied)
        invariant forall l :: 0 <= l < NUM_LEVELS ==> SoFar(edit, i, l, deleted1[l], added0[l], deleted[l], added[l])
      {
        var (level, f) := edit.added[i];
        hide SoFar;
        assert old(LevelState(level));
        IsFresh(SetOf(base[level]), old(applied), edit, i, deleted1[level], added0[level], deleted[level], added[level]);
        forall l | 0 <= l < NUM_LEVELS && l != level {
          SoFarSame(edit, i, l, deleted1[l], added0[l], deleted[l], added[l]);
        }
        var files := InsertFile(added[level], f);
        SoFarAdded(edit, i, deleted1[level], added0[level], deleted[level], added[level], files);
        deleted := deleted[level := deleted[level] - {f.number}];
        added := added[level := files];
        i := i + 1;
      }
      applied := applied + [edit];
      forall l | 0 <= l < NUM_LEVELS
        ensures LevelState(l)
      {
        assert old(LevelState(l));
        AppliedOneMore(SetOf(base[l]), old(applied), edit, l, deleted1[l], added0[l], deleted[l], added[l]);
      }
    }

    /** The files of each level in order, without the deleted ones. */
    method SaveTo() returns (v: Version)
      requires Valid()
      ensures forall l :: 0 <= l < NUM_LEVELS ==> InOrder(v[l]) && SetOf(v[l]) == EditedAll(SetOf(base[l]), applied, l)
    {
      var levels: seq<seq<File>> := [];
      while |levels| < NUM_LEVELS
        invariant |levels| <= NUM_LEVELS
        invariant forall l :: 0 <= l < |levels| ==>
          InOrder(levels[l]) && SetOf(levels[l]) == EditedAll(SetOf(base[l]), applied, l)
      {
        var l := |levels|;
        assert LevelState(l);
        var files := SaveLevel(l);
        FoldIsStepwise(SetOf(base[l]), applied, l);
        levels := levels + [files];
      }
      v := levels;
    }

    /** Merge the files of the base with the added ones, dropping what is deleted. */
    method SaveLevel(level: nat) returns (files: seq<File>)
      requires Valid() && level < NUM_LEVELS
      ensures InOrder(files) && SetOf(files) == Kept(SetOf(base[level]) + SetOf(added[level]), deleted[level])
    {
      assert LevelState(level);
      var baseFiles, addedFiles, gone := base[level], added[level], deleted[level];
      OtherNumbers(baseFiles, addedFiles);
      hide LevelState, Merged, BySmallest, InOrder, Kept, Numbers, EverAt, DeletedAll;
      NothingMerged(baseFiles, addedFiles, gone);
      files := [];
      var b, a := 0, 0;
      while a < |addedFiles|
        invariant 0 <= a <= |addedFiles| && 0 <= b <= |baseFiles|
        invariant Merged(baseFiles, b, addedFiles, a, gone, files)
      {
        var bpos := UpperBound(baseFiles, b, addedFiles[a]);
        while b != bpos
          invariant b <= bpos
          invariant Merged(baseFiles, b, addedFiles, a, gone, files)
        {
          BeforeAll(baseFiles[b], addedFiles, a);
          AddBaseFile(baseFiles, b, addedFiles, a, gone, files);
          files := MaybeAddFile(files, baseFiles[b], gone);
          b := b + 1;
        }
        AddAddedFile(baseFiles, b, addedFiles, a, gone, files);
        files := MaybeAddFile(files, addedFiles[a], gone);
        a := a + 1;
      }
      while b < |baseFiles|
        invariant 0 <= b <= |baseFiles|
        invariant Merged(baseFiles, b, addedFiles, a, gone, files)
      {
        AddBaseFile(baseFiles, b, addedFiles, a, gone, files);
        files := MaybeAddFile(files, baseFiles[b], gone);
        b := b + 1;
      }
      AllMerged(baseFiles, addedFiles, gone, files);
    }

    method ApplyDeletions(edit: Edit)
      requires |deleted| == NUM_LEVELS && edit.Valid()
      modifies `deleted
      ensures |deleted| == NUM_LEVELS
      ensures forall l :: 0 <= l < NUM_LEVELS ==> deleted[l] == old(deleted[l]) + DeletedAt(edit, l)
    {
      var rest := edit.deleted;
      while rest != {}
        invariant rest <= edit.deleted && |deleted| == NUM_LEVELS
        invariant forall l :: 0 <= l < NUM_LEVELS ==>
          deleted[l] == old(deleted[l]) + DeletedAt(Edit(edit.deleted - rest, []), l)
        decreases |rest|
      {
        var d :| d in rest;
        deleted := deleted[d.0 := deleted[d.0] + {d.1}];
        rest := rest - {d};
      }
    }
  }

  method MaybeAddFile(files: seq<File>, f: File, deleted: set<nat>) returns (r: seq<File>)
    ensures r == if f.number in deleted then files else files + [f]
  {
    if f.number in deleted {
      r := files;
    } else {
      r := files + [f];
    }
  }

  /** The first `b` base files and the first `a` added ones are merged; those to come are after them. */
  ghost predicate Merged(base: seq<File>, b: nat, added: seq<File>, a: nat, deleted: set<nat>, files: seq<File>) {
    && b <= |base| && a <= |added| && InOrder(base) && InOrder(added) && InOrder(files)
    && SetOf(files) == Kept(SetOf(base[..b]) + SetOf(added[..a]), deleted)
    && (forall f, k :: f in files && b <= k < |base| ==> BySmallest(f, base[k]))
    && forall f, k :: f in files && a <= k < |added| ==> BySmallest(f, added[k])
  }

  lemma NothingMerged(base: seq<File>, added: seq<File>, deleted: set<nat>)
    requires InOrder(base) && InOrder(added)
    ensures Merged(base, 0, added, 0, deleted, [])
  {}

  lemma AllMerged(base: seq<File>, added: seq<File>, deleted: set<nat>, files: seq<File>)
    requires Merged(base, |base|, added, |added|, deleted, files)
    ensures InOrder(files) && SetOf(files) == Kept(SetOf(base) + SetOf(added), deleted)
  {
    assert base[..|base|] == base && added[..|added|] == added;
  }

  lemma BeforeAll(f: File, added: seq<File>, a: nat)
    requires InOrder(added) && a < |added| && BySmallest(f, added[a])
    ensures forall k :: a <= k < |added| ==> BySmallest(f, added[k])
  {
    forall k | a < k < |added| {
      BySmallestIsOrder(f, added[a], added[k]);
    }
  }

  lemma OtherNumbers(a: seq<File>, b: seq<File>)
    requires Numbers(SetOf(a)) !! Numbers(SetOf(b))
    ensures forall i, j :: 0 <= i < |a| && 0 <= j < |b| ==> a[i].number != b[j].number
  {
    forall i, j | 0 <= i < |a| && 0 <= j < |b|
      ensures a[i].number != b[j].number
    {
      assert a[i] in SetOf(a) && b[j] in SetOf(b);
      assert a[i].number in Numbers(SetOf(a)) && b[j].number in Numbers(SetOf(b));
    }
  }

  lemma KeptOneMore(files: set<File>, f: File, deleted: set<nat>)
    ensures Kept(files + {f}, deleted) == Kept(files, deleted) + if f.number in deleted then {} else {f}
  {}

  lemma AddBaseFile(base: seq<File>, b: nat, added: seq<File>, a: nat, deleted: set<nat>, files: seq<File>)
    requires Merged(base, b, added, a, deleted, files) && b < |base|
    requires forall k :: a <= k < |added| ==> BySmallest(base[b], added[k])
    ensures Merged(base, b + 1, added, a, deleted, if base[b].number in deleted then files else files + [base[b]])
  {
    hide BySmallest;
    assert base[..b + 1] == base[..b] + [base[b]];
    KeptOneMore(SetOf(base[..b]) + SetOf(added[..a]), base[b], deleted);
    assert SetOf(base[..b + 1]) == SetOf(base[..b]) + {base[b]};
    assert SetOf(base[..b + 1]) + SetOf(added[..a]) == SetOf(base[..b]) + SetOf(added[..a]) + {base[b]};
    AppendInOrder(files, base[b]);
  }

  lemma AddAddedFile(base: seq<File>, b: nat, added: seq<File>, a: nat, deleted: set<nat>, files: seq<File>)
    requires Merged(base, b, added, a, deleted, files) && a < |added|
    requires forall k :: b <= k < |base| ==> BySmallest(added[a], base[k])
    ensures Merged(base, b, added, a + 1, deleted, if added[a].number in deleted then files else files + [added[a]])
  {
    hide BySmallest;
    assert added[..a + 1] == added[..a] + [added[a]];
    KeptOneMore(SetOf(base[..b]) + SetOf(added[..a]), added[a], deleted);
    assert SetOf(added[..a + 1]) == SetOf(added[..a]) + {added[a]};
    assert SetOf(base[..b]) + SetOf(added[..a + 1]) == SetOf(base[..b]) + SetOf(added[..a]) + {added[a]};
    AppendInOrder(files, added[a]);
  }

  lemma AppendInOrder(files: seq<File>, f: File)
    requires InOrder(files) && forall g :: g in files ==> BySmallest(g, f)
    ensures InOrder(files + [f]) && SetOf(files + [f]) == SetOf(files) + {f}
  {
    hide BySmallest;
  }

  ghost predicate DistinctNumbers(files: seq<File>) {
    forall f, g :: f in files && g in files && f.number == g.number ==> f == g
  }

  // ------------------------------------------------------------------ replay

  /** Versions installed one after another, each from the one before by one edit. */
  ghost predicate Steps(versions: seq<Version>, edits: seq<Edit>) {
    && |versions| == |edits| + 1
    && (forall k, l :: 0 <= k < |versions| && 0 <= l < NUM_LEVELS ==> InOrder(versions[k][l]))
    && forall k :: 0 <= k < |edits| ==> Step(versions[k], versions[k + 1], edits[k])
  }

  ghost predicate Step(v: Version, w: Version, e: Edit) {
    forall l :: 0 <= l < NUM_LEVELS ==> SetOf(w[l]) == Edited(SetOf(v[l]), e, l)
  }

  lemma {:induction false} StepsEdit(versions: seq<Version>, edits: seq<Edit>, l: nat)
    requires Steps(versions, edits) && l < NUM_LEVELS
    ensures SetOf(versions[|edits|][l]) == EditedAll(SetOf(versions[0][l]), edits, l)
    decreases |edits|
  {
    if edits != [] {
      var n := |edits| - 1;
      StepsEdit(versions[..n + 1], edits[..n], l);
      assert Step(versions[n], versions[n + 1], edits[n]);
    }
  }

  /** LogAndApply: a version from the current one and one edit. */
  method ApplyOne(current: Version, edit: Edit) returns (next: Version)
    requires edit.Valid() && forall l :: 0 <= l < NUM_LEVELS ==> InOrder(current[l]) && DistinctNumbers(current[l])
    requires forall l :: 0 <= l < NUM_LEVELS ==> AddedOnce(SetOf(current[l]), [edit], l)
    ensures Step(current, next, edit) && forall l :: 0 <= l < NUM_LEVELS ==> InOrder(next[l])
  {
    var builder := new Builder(current);
    assert [] + [edit] == [edit];
    builder.Apply(edit);
    next := builder.SaveTo();
    forall l | 0 <= l < NUM_LEVELS {
      OneEdit(SetOf(current[l]), edit, l);
    }
  }

  lemma OneEdit(files: set<File>, e: Edit, l: nat)
    ensures EditedAll(files, [e], l) == Edited(files, e, l)
  {
    assert [e][..0] == [];
  }

  lemma {:induction false} OncePrefix(files: set<File>, edits: seq<Edit>, l: nat, n: nat)
    requires AddedOnce(files, edits, l) && n <= |edits|
    ensures AddedOnce(files, edits[..n], l)
    decreases |edits| - n
  {
    if n < |edits| {
      OncePrefix(files, edits, l, n + 1);
      OnceBefore(files, edits[..n + 1], l);
      assert edits[..n + 1][..n] == edits[..n];
    } else {
      assert edits[..n] == edits;
    }
  }

  /** VersionSet::Recover: one builder and one SaveTo for all edits give the version that stepping through them gave. */
  method Replay(base: Version, edits: seq<Edit>, ghost versions: seq<Version>) returns (v: Version)
    requires forall l :: 0 <= l < NUM_LEVELS ==> InOrder(base[l]) && DistinctNumbers(base[l])
    requires forall k :: 0 <= k < |edits| ==> edits[k].Valid()
    requires forall l :: 0 <= l < NUM_LEVELS ==> AddedOnce(SetOf(base[l]), edits, l)
    requires Steps(versions, edits) && versions[0] == base
    ensures v == versions[|edits|]
  {
    var builder := new Builder(base);
    var k := 0;
    while k < |edits|
      invariant 0 <= k <= |edits| && builder.Valid() && fresh(builder) && builder.base == base && builder.applied == edits[..k]
    {
      assert edits[..k] + [edits[k]] == edits[..k + 1];
      forall l | 0 <= l < NUM_LEVELS {
        OncePrefix(SetOf(base[l]), edits, l, k + 1);
      }
      builder.Apply(edits[k]);
      k := k + 1;
    }
    assert edits[..|edits|] == edits;
    v := builder.SaveTo();
    forall l | 0 <= l < NUM_LEVELS
      ensures v[l] == versions[|edits|][l]
    {
      StepsEdit(versions, edits, l);
      ListIsUnique(v[l], versions[|edits|][l]);
    }
  }

  /** WriteSnapshot: all files of a version. */
  ghost predicate IsSnapshot(v: Version, e: Edit) {
    e.deleted == {} && forall l :: 0 <= l < NUM_LEVELS ==> AddedAt(e, l) == SetOf(v[l])
  }

  /** A snapshot applied to nothing is the version: a manifest may start with one. */
  lemma SnapshotIsVersion(v: Version, e: Edit, l: nat)
    requires IsSnapshot(v, e) && l < NUM_LEVELS
    ensures EditedAll({}, [e], l) == SetOf(v[l])
  {
    OneEdit({}, e, l);
  }
}
