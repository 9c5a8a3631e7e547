/** Cursor paging over a directory: the two-iterator merge of `list_entries`
    and what a caller who follows the cursors gets to see. */
module Listing {
  import opened Entries

  // ------------------------------------------------------------ entry order

  /** Lexicographic order of names. */
  predicate Less(a: string, b: string) {
    b != [] && (a == [] || a[0] < b[0] || (a[0] == b[0] && Less(a[1..], b[1..])))
  }

  lemma {:induction false} LessTotal(a: string, b: string)
    ensures a == b || Less(a, b) || Less(b, a)
    ensures !(Less(a, b) && Less(b, a)) && !Less(a, a)
  {
    if a != [] && b != [] && a[0] == b[0] {
      LessTotal(a[1..], b[1..]);
      assert a == [a[0]] + a[1..] && b == [b[0]] + b[1..];
    }
    if a != [] {
      LessTotal(a[1..], a[1..]);
    }
  }

  lemma {:induction false} LessTrans(a: string, b: string, c: string)
    requires Less(a, b) && Less(b, c)
    ensures Less(a, c)
  {
    if a != [] && a[0] == b[0] && b[0] == c[0] {
      LessTrans(a[1..], b[1..], c[1..]);
    }
  }

  /** At the first place where they differ, `a` has ended or has the smaller
      character. */
  predicate DiffersAt(a: string, b: string, i: nat) {
    i <= |a| && i < |b| && a[..i] == b[..i] && (i == |a| || a[i] < b[i])
  }

  lemma {:induction false} LessIff(a: string, b: string)
    ensures Less(a, b) <==> exists i :: DiffersAt(a, b, i)
  {
    if Less(a, b) {
      var i := FirstDifference(a, b);
    }
    if i :| DiffersAt(a, b, i) {
      DifferenceIsLess(a, b, i);
    }
  }

  lemma {:induction false} FirstDifference(a: string, b: string) returns (i: nat)
    requires Less(a, b)
    ensures DiffersAt(a, b, i)
  {
    if a == [] || a[0] < b[0] {
      i := 0;
    } else {
      var j := FirstDifference(a[1..], b[1..]);
      i := j + 1;
      assert a[..i] == [a[0]] + a[1..][..j] && b[..i] == [b[0]] + b[1..][..j];
    }
  }

  lemma {:induction false} DifferenceIsLess(a: string, b: string, i: nat)
    requires DiffersAt(a, b, i)
    ensures Less(a, b)
  {
    if i > 0 {
      assert a[0] == a[..i][0] == b[..i][0] == b[0];
      assert a[1..][..i - 1] == a[..i][1..] && b[1..][..i - 1] == b[..i][1..];
      DifferenceIsLess(a[1..], b[1..], i - 1);
    }
  }

  datatype Kind = Directory | File
  datatype Item = Item(name: string, kind: Kind)

  /** Listing order: by name, a directory before a file of the same name. */
  predicate Before(e: Item, f: Item) {
    Less(e.name, f.name) || (e.name == f.name && e.kind.Directory? && f.kind.File?)
  }

  lemma BeforeOrder(e: Item, f: Item)
    ensures e == f || Before(e, f) || Before(f, e)
    ensures !(Before(e, f) && Before(f, e)) && !Before(e, e)
  {
    LessTotal(e.name, f.name);
    LessTotal(e.name, e.name);
  }

  lemma BeforeTrans(e: Item, f: Item, g: Item)
    requires Before(e, f) && Before(f, g)
    ensures Before(e, g)
  {
    if Less(e.name, f.name) && Less(f.name, g.name) {
      LessTrans(e.name, f.name, g.name);
    }
  }

  /** Of one name, the directory comes first; of two, the smaller name. */
  lemma BeforeMeans(a: string, b: string, k: Kind, l: Kind)
    ensures Before(Item(a, Directory), Item(a, File)) && !Before(Item(a, File), Item(a, Directory))
    ensures a != b ==> (Before(Item(a, k), Item(b, l)) <==> Less(a, b))
  {
    LessTotal(a, a);
  }

  ghost predicate Increasing(s: seq<Item>) {
    forall i, j :: 0 <= i < j < |s| ==> Before(s[i], s[j])
  }

  // ------------------------------------------------------------- one page

  /** The merged snapshot's names, each map in key order. */
  datatype Snapshot = Snapshot(dirs: seq<string>, files: seq<string>) {
    ghost predicate Valid() {
      SortedNames(dirs) && SortedNames(files)
    }

    predicate Has(e: Item) {
      e.name in (if e.kind.Directory? then dirs else files)
    }
  }

  ghost predicate SortedNames(s: seq<string>) {
    forall i, j :: 0 <= i < j < |s| ==> Less(s[i], s[j])
  }

  type Cursor = Option<Item>

  ghost predicate Past(e: Item, cursor: Cursor) {
    cursor.Some? ==> Before(cursor.value, e)
  }

  /** The page a directory owes a caller: the first `limit` entries past the
      cursor, in order. */
  ghost predicate IsPage(s: Snapshot, cursor: Cursor, limit: nat, page: seq<Item>) {
    && |page| <= limit
    && Increasing(page)
    && (forall e :: e in page ==> s.Has(e) && Past(e, cursor))
    && (forall e :: s.Has(e) && Past(e, cursor) && e !in page ==>
          |page| == limit && forall x :: x in page ==> Before(x, e))
  }

  /** The range bound a cursor puts on one of the two maps. */
  datatype Bound = Unbounded | Included(name: string) | Excluded(name: string)

  predicate Within(b: Bound, name: string) {
    match b
    case Unbounded => true
    case Included(x) => !Less(name, x)
    case Excluded(x) => Less(x, name)
  }

  function BoundFor(cursor: Cursor, kind: Kind): Bound {
    match cursor
    case None => Unbounded
    case Some(Item(name, Directory)) => if kind.Directory? then Excluded(name) else Included(name)
    case Some(Item(name, File)) => Excluded(name)
  }

  /** The two range bounds together mean "past the cursor". */
  lemma BoundsMeanPast(cursor: Cursor, e: Item)
    ensures Within(BoundFor(cursor, e.kind), e.name) <==> Past(e, cursor)
  {
    if cursor.Some? {
      LessTotal(e.name, cursor.value.name);
    }
  }

  /** `range`: the tail of a sorted list that satisfies a lower bound. */
  method Range(names: seq<string>, b: Bound) returns (tail: seq<string>)
    requires SortedNames(names)
    ensures SortedNames(tail)
    ensures forall x :: x in tail <==> x in names && Within(b, x)
  {
    var i := 0;
    while i < |names| && !Within(b, names[i])
      invariant 0 <= i <= |names|
      invariant forall k :: 0 <= k < i ==> !Within(b, names[k])
    {
      i := i + 1;
    }
    tail := names[i..];
    forall k | i <= k < |names|
      ensures Within(b, names[k])
    {
      if k > i && !b.Unbounded? {
        assert Less(names[i], names[k]);
        LessTotal(names[k], names[i]);
        if b.Excluded? {
          LessTrans(b.name, names[i], names[k]);
        } else if Less(names[k], b.name) {
          LessTrans(names[i], names[k], b.name);
        }
      }
    }
  }

  /** `e` comes before everything the two iterators still hold. */
  ghost predicate Ahead(e: Item, ds: seq<string>, i: nat, fs: seq<string>, j: nat) {
    && (forall x :: i <= x < |ds| ==> Before(e, Item(ds[x], Directory)))
    && (forall y :: j <= y < |fs| ==> Before(e, Item(fs[y], File)))
  }

  ghost predicate Progress(out: seq<Item>, ds: seq<string>, i: nat, fs: seq<string>, j: nat) {
    && i <= |ds| && j <= |fs|
    && Increasing(out)
    && (forall e :: e in out ==> Ahead(e, ds, i, fs, j))
    && (forall e :: e in out <==> e.name in (if e.kind.Directory? then ds[..i] else fs[..j]))
  }

  lemma TakeDir(out: seq<Item>, ds: seq<string>, i: nat, fs: seq<string>, j: nat)
    requires SortedNames(ds) && SortedNames(fs) && Progress(out, ds, i, fs, j)
    requires i < |ds| && (j < |fs| ==> !Less(fs[j], ds[i]))
    ensures Progress(out + [Item(ds[i], Directory)], ds, i + 1, fs, j)
  {
    var e := Item(ds[i], Directory);
    assert ds[..i + 1] == ds[..i] + [ds[i]];
    forall y | j <= y < |fs|
      ensures Before(e, Item(fs[y], File))
    {
      LessTotal(ds[i], fs[j]);
      if y > j && Less(ds[i], fs[j]) {
        LessTrans(ds[i], fs[j], fs[y]);
      }
    }
    assert Ahead(e, ds, i + 1, fs, j);
    Follows(out, e, ds, i, fs, j);
  }

  lemma TakeFile(out: seq<Item>, ds: seq<string>, i: nat, fs: seq<string>, j: nat)
    requires SortedNames(ds) && SortedNames(fs) && Progress(out, ds, i, fs, j)
    requires j < |fs| && (i < |ds| ==> Less(fs[j], ds[i]))
    ensures Progress(out + [Item(fs[j], File)], ds, i, fs, j + 1)
  {
    var e := Item(fs[j], File);
    assert fs[..j + 1] == fs[..j] + [fs[j]];
    forall x | i <= x < |ds|
      ensures Before(e, Item(ds[x], Directory))
    {
      if x > i {
        LessTrans(fs[j], ds[i], ds[x]);
      }
    }
    assert Ahead(e, ds, i, fs, j + 1);
    Follows(out, e, ds, i, fs, j);
  }

  lemma Follows(out: seq<Item>, e: Item, ds: seq<string>, i: nat, fs: seq<string>, j: nat)
    requires Progress(out, ds, i, fs, j)
    requires if e.kind.Directory? then e.name in ds[i..] else e.name in fs[j..]
    ensures Increasing(out + [e])
  {
    forall o | o in out
      ensures Before(o, e)
    {
      assert Ahead(o, ds, i, fs, j);
    }
  }

  /** `list_entries`. */
  method ListEntries(s: Snapshot, cursor: Cursor, limit: nat) returns (out: seq<Item>, next: Cursor)
    requires s.Valid()
    ensures IsPage(s, cursor, limit, out)
    ensures next == if out == [] then None else Some(out[|out| - 1])
  {
    var ds := Range(s.dirs, BoundFor(cursor, Directory));
    var fs := Range(s.files, BoundFor(cursor, File));
    var i, j := 0, 0;
    out := [];
    while |out| < limit && (i < |ds| || j < |fs|)
      invariant Progress(out, ds, i, fs, j) && |out| <= limit
      decreases |ds| - i + |fs| - j
    {
      if i < |ds| && j < |fs| && ds[i] == fs[j] {
        LessTotal(ds[i], ds[i]);
        TakeDir(out, ds, i, fs, j);
        out, i := out + [Item(ds[i], Directory)], i + 1;
        if |out| == limit {
          break;
        }
        TakeFile(out, ds, i, fs, j);
        out, j := out + [Item(ds[i - 1], File)], j + 1;
      } else if j == |fs| || (i < |ds| && Less(ds[i], fs[j])) {
        if j < |fs| { LessTotal(ds[i], fs[j]); }
        TakeDir(out, ds, i, fs, j);
        out, i := out + [Item(ds[i], Directory)], i + 1;
      } else {
        if i < |ds| { LessTotal(ds[i], fs[j]); }
        TakeFile(out, ds, i, fs, j);
        out, j := out + [Item(fs[j], File)], j + 1;
      }
    }
    PageFromProgress(s, cursor, limit, out, ds, i, fs, j);
    next := if out == [] then None else Some(out[|out| - 1]);
  }

  lemma PageFromProgress(s: Snapshot, cursor: Cursor, limit: nat, out: seq<Item>,
                         ds: seq<string>, i: nat, fs: seq<string>, j: nat)
    requires Progress(out, ds, i, fs, j) && |out| <= limit
    requires |out| == limit || (i == |ds| && j == |fs|)
    requires forall x :: x in ds <==> x in s.dirs && Within(BoundFor(cursor, Directory), x)
    requires forall x :: x in fs <==> x in s.files && Within(BoundFor(cursor, File), x)
    ensures IsPage(s, cursor, limit, out)
  {
    forall e
      ensures s.Has(e) && Past(e, cursor) <==> e.name in (if e.kind.Directory? then ds else fs)
    {
      BoundsMeanPast(cursor, e);
    }
    forall e | s.Has(e) && Past(e, cursor)
      ensures e in out || (|out| == limit && forall x :: x in out ==> Before(x, e))
    {
      var all, k := if e.kind.Directory? then ds else fs, if e.kind.Directory? then i else j;
      var x :| 0 <= x < |all| && all[x] == e.name;
      if x < k {
        assert all[..k][x] == e.name;
      } else {
        forall o | o in out
          ensures Before(o, e)
        {
          assert Ahead(o, ds, i, fs, j);
        }
      }
    }
  }

  // ------------------------------------------------------------- many pages

  /** One request of a paging caller, with the directory as it was then. */
  datatype Visit = Visit(snapshot: Snapshot, limit: nat, page: seq<Item>)

  function NextCursor(cursor: Cursor, page: seq<Item>): Cursor {
    if page == [] then cursor else Some(page[|page| - 1])
  }

  /** Each page is the answer to the cursor of the page before, every limit is
      at least 1, and the last page is empty. The directory may change freely
      between requests. */
  ghost predicate Paging(visits: seq<Visit>, cursor: Cursor) {
    && visits != []
    && var v := visits[0];
       && v.limit >= 1 && IsPage(v.snapshot, cursor, v.limit, v.page)
       && if |visits| == 1 then v.page == [] else Paging(visits[1..], NextCursor(cursor, v.page))
  }

  function Listed(visits: seq<Visit>): seq<Item> {
    if visits == [] then [] else visits[0].page + Listed(visits[1..])
  }

  lemma {:induction false} PagesIncrease(visits: seq<Visit>, cursor: Cursor)
    requires Paging(visits, cursor)
    ensures Increasing(Listed(visits))
    ensures forall e :: e in Listed(visits) ==> Past(e, cursor)
    decreases visits
  {
    var v := visits[0];
    if |visits| > 1 {
      var rest := Listed(visits[1..]);
      PagesIncrease(visits[1..], NextCursor(cursor, v.page));
      forall e, x | e in rest && x in v.page
        ensures Before(x, e)
      {
        var last := v.page[|v.page| - 1];
        var k :| 0 <= k < |v.page| && v.page[k] == x;
        if k < |v.page| - 1 {
          BeforeTrans(x, last, e);
        }
      }
      forall e | e in rest
        ensures Past(e, cursor)
      {
        if v.page != [] && cursor.Some? {
          var last := v.page[|v.page| - 1];
          assert last in v.page;
          BeforeTrans(cursor.value, last, e);
        }
      }
    } else {
      assert Listed(visits[1..]) == [];
    }
  }

  lemma {:induction false} PagesComplete(visits: seq<Visit>, cursor: Cursor, e: Item)
    requires Paging(visits, cursor) && Past(e, cursor)
    requires forall v :: v in visits ==> v.snapshot.Has(e)
    ensures e in Listed(visits)
    decreases visits
  {
    var v := visits[0];
    assert v in visits;
    if e !in v.page && |visits| > 1 {
      PagesComplete(visits[1..], NextCursor(cursor, v.page), e);
    }
  }

  /** Following the cursors to the empty page lists entries in strictly
      increasing order, so none twice, and misses no entry that was there all
      along, whatever else came and went in between. */
  lemma PagingIsReliable(visits: seq<Visit>)
    requires Paging(visits, None)
    ensures Increasing(Listed(visits))
    ensures forall i, j :: 0 <= i < j < |Listed(visits)| ==> Listed(visits)[i] != Listed(visits)[j]
    ensures forall e :: (forall v :: v in visits ==> v.snapshot.Has(e)) ==> e in Listed(visits)
  {
    PagesIncrease(visits, None);
    forall i, j | 0 <= i < j < |Listed(visits)|
      ensures Listed(visits)[i] != Listed(visits)[j]
    {
      BeforeOrder(Listed(visits)[i], Listed(visits)[j]);
    }
    forall e | forall v :: v in visits ==> v.snapshot.Has(e)
      ensures e in Listed(visits)
    {
      PagesComplete(visits, None, e);
    }
  }

  lemma {:induction false} OnlyListed(visits: seq<Visit>, cursor: Cursor, s: Snapshot)
    requires Paging(visits, cursor) && forall v :: v in visits ==> v.snapshot == s
    ensures forall e :: e in Listed(visits) ==> s.Has(e)
    decreases visits
  {
    assert visits[0] in visits;
    if |visits| > 1 {
      OnlyListed(visits[1..], NextCursor(cursor, visits[0].page), s);
    } else {
      assert Listed(visits[1..]) == [];
    }
  }

  /** On an unchanged directory the pages concatenate to the full listing: the
      page one unlimited request would return. */
  lemma PagesConcatenate(visits: seq<Visit>, s: Snapshot)
    requires Paging(visits, None) && forall v :: v in visits ==> v.snapshot == s
    ensures IsPage(s, None, |Listed(visits)|, Listed(visits))
    ensures forall e :: s.Has(e) <==> e in Listed(visits)
  {
    PagingIsReliable(visits);
    OnlyListed(visits, None, s);
  }
}
