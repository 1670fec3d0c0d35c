/** The disk watchdog (node/src/recorder/watchdog.rs). Percentages are over the reals. */
module Watchdog {
  import opened Strings

  const HIGH_WATERMARK := 85.0
  const LOW_WATERMARK := 75.0

  datatype File = File(path: string, mtime: int, size: nat)

  /** `disk_usage_pct` of a disk with `avail` of `total` bytes free. */
  function UsagePct(total: nat, avail: nat): real {
    if total == 0 then 0.0 else (1.0 - avail as real / total as real) * 100.0
  }

  /** The least number of free bytes that brings the usage down to the low watermark. */
  function Enough(total: nat): nat {
    if total == 0 then 0 else (total + 3) / 4
  }

  lemma MeetsLow(total: nat, avail: nat)
    ensures UsagePct(total, avail) <= LOW_WATERMARK <==> avail >= Enough(total)
  {
    if total > 0 {
      var t, a := total as real, avail as real;
      Quarter(a, t);
      assert a >= 0.25 * t <==> 4 * avail >= total;
    }
  }

  /** And the high watermark is passed exactly if less than 15 percent of the disk is free. */
  lemma PassesHigh(total: nat, avail: nat)
    ensures UsagePct(total, avail) > HIGH_WATERMARK <==> total > 0 && 100 * avail < 15 * total
  {
    if total > 0 {
      var t, a := total as real, avail as real;
      var share := a / t;
      assert share * t == a;
      if share < 0.15 {
        assert (0.15 - share) * t > 0.0;
      } else {
        assert (share - 0.15) * t >= 0.0;
      }
    }
  }

  lemma Quarter(a: real, t: real)
    requires t > 0.0
    ensures a / t >= 0.25 <==> a >= 0.25 * t
  {
    var share := a / t;
    assert share * t == a;
    if share >= 0.25 {
      assert (share - 0.25) * t >= 0.0;
    } else {
      assert (0.25 - share) * t > 0.0;
    }
  }

  function TotalSize(files: seq<File>): nat {
    if files == [] then 0 else files[0].size + TotalSize(files[1..])
  }

  // ---- sort_by_key(|(_, mtime)| *mtime) ----

  predicate Sorted(files: seq<File>) {
    forall i, j | 0 <= i < j < |files| :: files[i].mtime <= files[j].mtime
  }

  /** Insertion after the entries of the same time keeps the sort stable. */
  function Insert(f: File, files: seq<File>): seq<File> {
    if files == [] then [f]
    else if f.mtime < files[0].mtime then [f] + files
    else [files[0]] + Insert(f, files[1..])
  }

  function SortByMtime(files: seq<File>): seq<File> {
    if files == [] then [] else Insert(files[|files| - 1], SortByMtime(files[..|files| - 1]))
  }

  lemma {:induction false} InsertIn(f: File, files: seq<File>)
    ensures forall k | 0 <= k < |Insert(f, files)| :: Insert(f, files)[k] == f || Insert(f, files)[k] in files
  {
    if files != [] && f.mtime >= files[0].mtime {
      InsertIn(f, files[1..]);
    }
  }

  lemma {:induction false} InsertSorted(f: File, files: seq<File>)
    requires Sorted(files)
    ensures Sorted(Insert(f, files))
  {
    if files != [] && f.mtime >= files[0].mtime {
      InsertSorted(f, files[1..]);
      InsertIn(f, files[1..]);
    }
  }

  lemma {:induction false} InsertAdds(f: File, files: seq<File>)
    ensures multiset(Insert(f, files)) == multiset(files) + multiset{f}
  {
    if files != [] && f.mtime >= files[0].mtime {
      InsertAdds(f, files[1..]);
      assert files == [files[0]] + files[1..];
    }
  }

  lemma SplitLast(files: seq<File>)
    requires files != []
    ensures files == files[..|files| - 1] + [files[|files| - 1]]
    ensures multiset(files) == multiset(files[..|files| - 1]) + multiset{files[|files| - 1]}
  {
    assert files == files[..|files| - 1] + [files[|files| - 1]];
  }

  lemma {:induction false} SortCorrect(files: seq<File>)
    ensures Sorted(SortByMtime(files)) && multiset(SortByMtime(files)) == multiset(files)
    decreases |files|
  {
    if files != [] {
      SortCorrect(files[..|files| - 1]);
      InsertSorted(files[|files| - 1], SortByMtime(files[..|files| - 1]));
      InsertAdds(files[|files| - 1], SortByMtime(files[..|files| - 1]));
      SplitLast(files);
    }
  }

  lemma SortMembers(files: seq<File>)
    ensures Sorted(SortByMtime(files)) && forall f :: f in SortByMtime(files) <==> f in files
  {
    SortCorrect(files);
    assert forall f :: f in SortByMtime(files) <==> f in multiset(SortByMtime(files));
    assert forall f :: f in files <==> f in multiset(files);
  }

  /** The files of one modification time, in order. */
  function AtTime(files: seq<File>, mtime: int): seq<File> {
    if files == [] then [] else (if files[0].mtime == mtime then [files[0]] else []) + AtTime(files[1..], mtime)
  }

  lemma {:induction false} AtTimeConcat(a: seq<File>, b: seq<File>, mtime: int)
    ensures AtTime(a + b, mtime) == AtTime(a, mtime) + AtTime(b, mtime)
  {
    if a == [] {
      assert a + b == b;
    } else {
      SliceConcat(a, b, 1);
      AtTimeConcat(a[1..], b, mtime);
      Assoc(if a[0].mtime == mtime then [a[0]] else [], AtTime(a[1..], mtime), AtTime(b, mtime));
    }
  }

  lemma {:induction false} AtTimeLater(files: seq<File>, mtime: int)
    requires forall f | f in files :: f.mtime > mtime
    ensures AtTime(files, mtime) == []
  {
    if files != [] {
      AtTimeLater(files[1..], mtime);
    }
  }

  lemma {:induction false} InsertStable(f: File, files: seq<File>, mtime: int)
    requires Sorted(files)
    ensures AtTime(Insert(f, files), mtime) == AtTime(files, mtime) + (if f.mtime == mtime then [f] else [])
  {
    if files != [] {
      if f.mtime < files[0].mtime {
        AtTimeConcat([f], files, mtime);
        if f.mtime == mtime {
          AtTimeLater(files, mtime);
        }
      } else {
        InsertStable(f, files[1..], mtime);
        AtTimeConcat([files[0]], Insert(f, files[1..]), mtime);
      }
    }
  }

  /** The sort is stable: files of the same time stay in the order in which the walk found them. */
  lemma {:induction false} SortStable(files: seq<File>, mtime: int)
    ensures AtTime(SortByMtime(files), mtime) == AtTime(files, mtime)
    decreases |files|
  {
    if files != [] {
      var init, last := files[..|files| - 1], files[|files| - 1];
      SortStable(init, mtime);
      SortCorrect(init);
      InsertStable(last, SortByMtime(init), mtime);
      SplitLast(files);
      AtTimeConcat(init, [last], mtime);
      AtTimeOne(last, mtime);
    }
  }

  lemma AtTimeOne(f: File, mtime: int)
    ensures AtTime([f], mtime) == if f.mtime == mtime then [f] else []
  {
  }

  // ---- Culling ----

  function Gone(deleted: seq<File>): set<File> {
    set f | f in deleted
  }

  /** The files a culling run deletes from a listing in order, until `enough` bytes are free. A file that
      cannot be deleted frees nothing and is passed over. */
  function Culled(order: seq<File>, avail: nat, enough: nat, deletable: set<File>): seq<File>
    decreases |order|
  {
    if order == [] || avail >= enough then []
    else if order[0] in deletable then
      [order[0]] + Culled(order[1..], avail + order[0].size, enough, deletable)
    else Culled(order[1..], avail, enough, deletable)
  }

  /** What a culling run may report, stated without its loop. */
  ghost predicate IsMinimalCull(deleted: seq<File>, listing: seq<File>, deletable: set<File>, avail: nat, enough: nat) {
    && OnlyDeletable(deleted, listing, deletable)
    && NeverPastTarget(deleted, avail, enough)
    && (avail + TotalSize(deleted) >= enough || EveryFileTried(deleted, listing, deletable))
    && Sorted(deleted)
    && NoSurvivorOlder(deleted, listing, deletable)
  }

  ghost predicate OnlyDeletable(deleted: seq<File>, listing: seq<File>, deletable: set<File>) {
    forall f | f in deleted :: f in listing && f in deletable
  }

  ghost predicate EveryFileTried(deleted: seq<File>, listing: seq<File>, deletable: set<File>) {
    forall f | f in listing :: f in deleted || f !in deletable
  }

  /** Just before each deletion, with exactly the earlier ones done, the target was not met. */
  ghost predicate NeverPastTarget(deleted: seq<File>, avail: nat, enough: nat) {
    forall k | 0 <= k < |deleted| :: avail + TotalSize(deleted[..k]) < enough
  }

  ghost predicate NoSurvivorOlder(deleted: seq<File>, listing: seq<File>, deletable: set<File>) {
    forall d, f | d in deleted && f in listing && f !in deleted && f in deletable :: d.mtime <= f.mtime
  }

  lemma {:induction false} CulledOnlyDeletable(order: seq<File>, avail: nat, enough: nat, deletable: set<File>)
    ensures OnlyDeletable(Culled(order, avail, enough, deletable), order, deletable)
    decreases |order|
  {
    if order != [] && avail < enough {
      CulledOnlyDeletable(order[1..], avail + order[0].size, enough, deletable);
      CulledOnlyDeletable(order[1..], avail, enough, deletable);
    }
  }

  lemma TotalSizeCons(f: File, files: seq<File>)
    ensures TotalSize([f] + files) == f.size + TotalSize(files)
  {
    assert ([f] + files)[1..] == files;
  }

  lemma {:induction false} CulledReaches(order: seq<File>, avail: nat, enough: nat, deletable: set<File>)
    ensures (avail + TotalSize(Culled(order, avail, enough, deletable)) >= enough
             || EveryFileTried(Culled(order, avail, enough, deletable), order, deletable))
    decreases |order|
  {
    if order != [] && avail < enough {
      var f, rest := order[0], order[1..];
      assert order == [f] + rest;
      if f in deletable {
        CulledReaches(rest, avail + f.size, enough, deletable);
        TotalSizeCons(f, Culled(rest, avail + f.size, enough, deletable));
      } else {
        CulledReaches(rest, avail, enough, deletable);
      }
    }
  }

  lemma {:induction false} CulledNeverPast(order: seq<File>, avail: nat, enough: nat, deletable: set<File>)
    ensures NeverPastTarget(Culled(order, avail, enough, deletable), avail, enough)
    decreases |order|
  {
    if order != [] && avail < enough {
      var f, rest := order[0], order[1..];
      if f in deletable {
        CulledNeverPast(rest, avail + f.size, enough, deletable);
        var tail := Culled(rest, avail + f.size, enough, deletable);
        forall k | 0 <= k < 1 + |tail| ensures avail + TotalSize(([f] + tail)[..k]) < enough {
          if k > 0 {
            assert ([f] + tail)[..k] == [f] + tail[..k - 1];
            TotalSizeCons(f, tail[..k - 1]);
          }
        }
      } else {
        CulledNeverPast(rest, avail, enough, deletable);
      }
    }
  }

  lemma FirstIsOldest(order: seq<File>)
    requires Sorted(order) && order != []
    ensures Sorted(order[1..]) && forall g | g in order :: order[0].mtime <= g.mtime
  {
  }

  lemma {:induction false} CulledSorted(order: seq<File>, avail: nat, enough: nat, deletable: set<File>)
    requires Sorted(order)
    ensures Sorted(Culled(order, avail, enough, deletable))
    decreases |order|
  {
    if order != [] && avail < enough {
      FirstIsOldest(order);
      CulledSorted(order[1..], avail + order[0].size, enough, deletable);
      CulledSorted(order[1..], avail, enough, deletable);
      CulledOnlyDeletable(order[1..], avail + order[0].size, enough, deletable);
      var tail := Culled(order[1..], avail + order[0].size, enough, deletable);
      forall k | 0 <= k < |tail| ensures order[0].mtime <= tail[k].mtime {
        assert tail[k] in order[1..];
      }
    }
  }

  lemma DeleteFirst(order: seq<File>, tail: seq<File>, deletable: set<File>)
    requires order != [] && (forall g | g in order :: order[0].mtime <= g.mtime)
    requires NoSurvivorOlder(tail, order[1..], deletable)
    ensures NoSurvivorOlder([order[0]] + tail, order, deletable)
  {
    assert order == [order[0]] + order[1..];
  }

  lemma PassOver(order: seq<File>, tail: seq<File>, deletable: set<File>)
    requires order != [] && order[0] !in deletable
    requires NoSurvivorOlder(tail, order[1..], deletable)
    ensures NoSurvivorOlder(tail, order, deletable)
  {
    assert order == [order[0]] + order[1..];
  }

  lemma {:induction false} CulledOldestFirst(order: seq<File>, avail: nat, enough: nat, deletable: set<File>)
    requires Sorted(order)
    ensures NoSurvivorOlder(Culled(order, avail, enough, deletable), order, deletable)
    decreases |order|
  {
    if order != [] && avail < enough {
      FirstIsOldest(order);
      if order[0] in deletable {
        CulledOldestFirst(order[1..], avail + order[0].size, enough, deletable);
        DeleteFirst(order, Culled(order[1..], avail + order[0].size, enough, deletable), deletable);
      } else {
        CulledOldestFirst(order[1..], avail, enough, deletable);
        PassOver(order, Culled(order[1..], avail, enough, deletable), deletable);
      }
    }
  }

  /** The run over the sorted listing is a minimal, oldest-first cull of the listing in any order. */
  lemma CulledIsMinimal(listing: seq<File>, avail: nat, enough: nat, deletable: set<File>)
    ensures IsMinimalCull(Culled(SortByMtime(listing), avail, enough, deletable), listing, deletable, avail, enough)
  {
    SortMembers(listing);
    CulledOnlyDeletable(SortByMtime(listing), avail, enough, deletable);
    CulledReaches(SortByMtime(listing), avail, enough, deletable);
    CulledNeverPast(SortByMtime(listing), avail, enough, deletable);
    CulledSorted(SortByMtime(listing), avail, enough, deletable);
    CulledOldestFirst(SortByMtime(listing), avail, enough, deletable);
  }

  lemma {:induction false} TotalSizeSnoc(deleted: seq<File>, f: File)
    ensures TotalSize(deleted + [f]) == TotalSize(deleted) + f.size
    ensures Gone(deleted + [f]) == Gone(deleted) + {f}
  {
    if deleted != [] {
      assert (deleted + [f])[1..] == deleted[1..] + [f];
      TotalSizeSnoc(deleted[1..], f);
    }
  }

  class Disk {
    const total: nat
    var avail: nat
    var files: set<File>

    constructor (total: nat, avail: nat, files: set<File>)
      ensures this.total == total && this.avail == avail && this.files == files
    {
      this.total, this.avail, this.files := total, avail, files;
    }

    /** `cull_until` the low watermark, with nobody else writing. */
    method CullUntil(listing: seq<File>, deletable: set<File>) returns (deleted: seq<File>)
      modifies this
      ensures deleted == Culled(SortByMtime(listing), old(avail), Enough(total), deletable)
      ensures avail == old(avail) + TotalSize(deleted)
      ensures files == old(files) - Gone(deleted)
    {
      var order := SortByMtime(listing);
      deleted := [];
      var i := 0;
      while i < |order|
        invariant 0 <= i <= |order|
        invariant deleted + Culled(order[i..], avail, Enough(total), deletable)
               == Culled(order, old(avail), Enough(total), deletable)
        invariant avail == old(avail) + TotalSize(deleted)
        invariant files == old(files) - Gone(deleted)
      {
        MeetsLow(total, avail);
        if UsagePct(total, avail) <= LOW_WATERMARK {
          break;
        }
        var f := order[i];
        assert order[i..][1..] == order[i + 1..];
        i := i + 1;
        if f !in deletable {
          continue;
        }
        files := files - {f};
        avail := avail + f.size;
        TotalSizeSnoc(deleted, f);
        ghost var rest := Culled(order[i..], avail, Enough(total), deletable);
        assert deleted + ([f] + rest) == (deleted + [f]) + rest;
        deleted := deleted + [f];
      }
    }

    /** One tick of `run`: nothing at or below the high watermark, otherwise down to the low one. */
    method Tick(listing: seq<File>, deletable: set<File>) returns (deleted: seq<File>)
      modifies this
      ensures UsagePct(total, old(avail)) <= 85.0 ==> deleted == [] && avail == old(avail) && files == old(files)
      ensures UsagePct(total, old(avail)) > 85.0 ==>
                && IsMinimalCull(deleted, listing, deletable, old(avail), Enough(total))
                && (UsagePct(total, avail) <= 75.0 || EveryFileTried(deleted, listing, deletable))
      ensures avail == old(avail) + TotalSize(deleted)
      ensures files == old(files) - Gone(deleted)
    {
      deleted := [];
      if UsagePct(total, avail) > HIGH_WATERMARK {
        deleted := CullUntil(listing, deletable);
        CulledIsMinimal(listing, old(avail), Enough(total), deletable);
        MeetsLow(total, avail);
      }
    }
  }
}
