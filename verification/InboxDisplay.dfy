/** One inbox row per issue (apps/mobile/lib/inbox-display.ts). */
module InboxDisplay {
  import opened Lists

  /** `createdAt` is the parsed time; `rest` stands for the columns nothing here looks at. */
  datatype Item = Item(id: string, issueId: Option<string>, archived: bool, createdAt: int,
                       details: Option<map<string, string>>, rest: string)

  const COMMENT_ID := "comment_id"

  function KeyOf(i: Item): string {
    if i.issueId.Some? then i.issueId.value else i.id
  }

  function CommentOf(i: Item): Option<string> {
    if i.details.Some? && COMMENT_ID in i.details.value then Some(i.details.value[COMMENT_ID]) else None
  }

  predicate HasComment(i: Item) {
    CommentOf(i).Some? && CommentOf(i).value != ""
  }

  /** The order of both sorts. */
  predicate NotOlder(a: Item, b: Item) {
    a.createdAt >= b.createdAt
  }

  // ---------------------------------------------------------------- what the rows are

  function Only(items: seq<Item>, keep: Item -> bool): seq<Item> {
    if items == [] then []
    else
      var n := |items| - 1;
      if keep(items[n]) then Only(items[..n], keep) + [items[n]] else Only(items[..n], keep)
  }

  predicate IsActive(i: Item) {
    !i.archived
  }

  function Group(items: seq<Item>, key: string): seq<Item> {
    if items == [] then []
    else
      var n := |items| - 1;
      Group(items[..n], key) + if KeyOf(items[n]) == key then [items[n]] else []
  }

  /** Group keys in the order in which they first appear. */
  function Keys(items: seq<Item>): seq<string> {
    if items == [] then []
    else
      var n := |items| - 1;
      var keys := Keys(items[..n]);
      if KeyOf(items[n]) in keys then keys else keys + [KeyOf(items[n])]
  }

  /** The newest of a group, the earliest in the input among equals. */
  function Newest(group: seq<Item>): Item
    requires group != []
  {
    var n := |group| - 1;
    if n == 0 then group[0]
    else
      var best := Newest(group[..n]);
      if group[n].createdAt > best.createdAt then group[n] else best
  }

  /** The anchor: the newest row's own comment, or else that of the newest row that has one. */
  function Anchor(group: seq<Item>): Option<string>
    requires group != []
  {
    var own := CommentOf(Newest(group));
    if own.Some? then own
    else
      var commented := Only(group, HasComment);
      if commented == [] then None else CommentOf(Newest(commented))
  }

  function WithAnchor(i: Item, anchor: Option<string>): Item {
    if anchor.Some? && anchor.value != "" && CommentOf(i) != anchor then
      i.(details := Some((if i.details.Some? then i.details.value else map[])[COMMENT_ID := anchor.value]))
    else i
  }

  function RowOf(group: seq<Item>): Item
    requires group != []
  {
    WithAnchor(Newest(group), Anchor(group))
  }

  function Rows(active: seq<Item>): seq<Item> {
    var keys := Keys(active);
    seq(|keys|, i requires 0 <= i < |keys| => (GroupNonEmpty(active, keys[i]); RowOf(Group(active, keys[i]))))
  }

  function Dedup(items: seq<Item>): seq<Item> {
    Sort(Rows(Only(items, IsActive)), NotOlder)
  }

  lemma {:induction false} RowsAt(active: seq<Item>, i: nat)
    requires i < |Keys(active)|
    ensures Group(active, Keys(active)[i]) != []
    ensures |Rows(active)| == |Keys(active)| && Rows(active)[i] == RowOf(Group(active, Keys(active)[i]))
  {
    GroupNonEmpty(active, Keys(active)[i]);
  }

  lemma {:induction false} GroupNonEmpty(items: seq<Item>, key: string)
    ensures key in Keys(items) <==> Group(items, key) != []
    decreases |items|
  {
    if items != [] { GroupNonEmpty(items[..|items| - 1], key); }
  }

  // ---------------------------------------------------------------- the program

  method DeduplicateInboxItems(items: seq<Item>) returns (r: seq<Item>)
    ensures r == Dedup(items)
  {
    var active := ActiveItems(items);
    var keys, groups := GroupByKey(active);
    var merged: seq<Item> := [];
    for i := 0 to |keys|
      invariant merged == Rows(active)[..i]
    {
      RowsAt(active, i);
      var row := MergeGroup(groups[keys[i]]);
      assert Rows(active)[..i + 1] == Rows(active)[..i] + [row];
      merged := merged + [row];
    }
    assert |Rows(active)| == |keys| && Rows(active)[..|keys|] == Rows(active);
    r := Sort(merged, NotOlder);
  }

  method ActiveItems(items: seq<Item>) returns (active: seq<Item>)
    ensures active == Only(items, IsActive)
  {
    active := [];
    for i := 0 to |items|
      invariant active == Only(items[..i], IsActive)
    {
      assert items[..i + 1][..i] == items[..i];
      if !items[i].archived { active := active + [items[i]]; }
    }
    assert items[..|items|] == items;
  }

  method GroupByKey(active: seq<Item>) returns (keys: seq<string>, groups: map<string, seq<Item>>)
    ensures keys == Keys(active)
    ensures forall k :: k in groups <==> k in keys
    ensures forall k :: k in groups ==> groups[k] == Group(active, k)
  {
    keys, groups := [], map[];
    for i := 0 to |active|
      invariant keys == Keys(active[..i])
      invariant forall k :: k in groups <==> k in keys
      invariant forall k :: k in groups ==> groups[k] == Group(active[..i], k)
    {
      var key := KeyOf(active[i]);
      assert active[..i + 1][..i] == active[..i];
      GroupNonEmpty(active[..i], key);
      if key !in groups { keys := keys + [key]; }
      groups := groups[key := (if key in groups then groups[key] else []) + [active[i]]];
    }
    assert active[..|active|] == active;
  }

  /** Sorts one group, takes its first row, and looks for a comment if that row has none. */
  method MergeGroup(group: seq<Item>) returns (row: Item)
    requires group != []
    ensures row == RowOf(group)
  {
    var sorted := Sort(group, NotOlder);
    SortHead(group);
    var newest := sorted[0];
    var anchor := CommentOf(newest);
    if anchor.None? {
      var i := 0;
      while i < |sorted| && !HasComment(sorted[i])
        invariant 0 <= i <= |sorted|
        invariant forall j :: 0 <= j < i ==> !HasComment(sorted[j])
      {
        i := i + 1;
      }
      FirstCommented(group, i);
      if i < |sorted| { anchor := CommentOf(sorted[i]); }
    }
    row := WithAnchor(newest, anchor);
  }

  // ---------------------------------------------------------------- sorting a group

  lemma {:induction false} SortHead(group: seq<Item>)
    requires group != []
    ensures Sort(group, NotOlder) != [] && Sort(group, NotOlder)[0] == Newest(group)
    decreases |group|
  {
    var n := |group| - 1;
    SortPermutes(group, NotOlder);
    var s := Sort(group[..n], NotOlder);
    if n == 0 {
      assert s == [];
    } else {
      SortHead(group[..n]);
      SortSorts(group[..n], NotOlder);
      InsertHead(s, group[n]);
    }
  }

  lemma {:induction false} InsertHead(s: seq<Item>, x: Item)
    requires s != [] && Sorted(s, NotOlder)
    ensures Insert(s, x, NotOlder) != []
    ensures Insert(s, x, NotOlder)[0] == if x.createdAt > s[0].createdAt then x else s[0]
    decreases |s|
  {
    var n := |s| - 1;
    if NotOlder(s[n], x) {
      assert n > 0 ==> NotOlder(s[0], s[n]);
    } else if n > 0 {
      InsertHead(s[..n], x);
    }
  }

  /** Sorting and keeping only some elements commute. */
  lemma {:induction false} SortOnly(s: seq<Item>, keep: Item -> bool)
    ensures Only(Sort(s, NotOlder), keep) == Sort(Only(s, keep), NotOlder)
    decreases |s|
  {
    if s != [] {
      var n := |s| - 1;
      SortOnly(s[..n], keep);
      SortSorts(s[..n], NotOlder);
      InsertOnly(Sort(s[..n], NotOlder), s[n], keep);
      var kept := Only(s[..n], keep);
      if keep(s[n]) { assert (kept + [s[n]])[..|kept|] == kept; }
    }
  }

  lemma {:induction false} InsertOnly(s: seq<Item>, x: Item, keep: Item -> bool)
    requires Sorted(s, NotOlder)
    ensures Only(Insert(s, x, NotOlder), keep)
         == if keep(x) then Insert(Only(s, keep), x, NotOlder) else Only(s, keep)
    decreases |s|
  {
    if s == [] || NotOlder(s[|s| - 1], x) {
      OnlyAppend(s, x, keep);
      OnlyLast(s, x, keep);
    } else {
      var n := |s| - 1;
      InsertOnly(s[..n], x, keep);
      OnlyAppend(Insert(s[..n], x, NotOlder), s[n], keep);
      if keep(s[n]) { InsertBefore(Only(s[..n], keep), s[n], x); }
    }
  }

  lemma {:induction false} InsertBefore(s: seq<Item>, y: Item, x: Item)
    requires !NotOlder(y, x)
    ensures Insert(s + [y], x, NotOlder) == Insert(s, x, NotOlder) + [y]
  {
    assert (s + [y])[..|s|] == s;
  }

  /** What goes to the end of a list goes to the end of what is kept of it. */
  lemma {:induction false} OnlyLast(s: seq<Item>, x: Item, keep: Item -> bool)
    requires Sorted(s, NotOlder) && (s == [] || NotOlder(s[|s| - 1], x))
    ensures Insert(Only(s, keep), x, NotOlder) == Only(s, keep) + [x]
  {
    var kept := Only(s, keep);
    if kept != [] {
      OnlyMember(s, keep, kept[|kept| - 1]);
      var i :| 0 <= i < |s| && s[i] == kept[|kept| - 1];
      assert i < |s| - 1 ==> NotOlder(s[i], s[|s| - 1]);
    }
  }

  lemma {:induction false} OnlyAppend(s: seq<Item>, x: Item, keep: Item -> bool)
    ensures Only(s + [x], keep) == if keep(x) then Only(s, keep) + [x] else Only(s, keep)
  {
    assert (s + [x])[..|s|] == s;
  }

  lemma {:induction false} OnlyMember(s: seq<Item>, keep: Item -> bool, x: Item)
    ensures x in Only(s, keep) <==> x in s && keep(x)
    decreases |s|
  {
    if s != [] {
      var n := |s| - 1;
      assert s == s[..n] + [s[n]];
      OnlyMember(s[..n], keep, x);
    }
  }

  /** The first kept element of a list heads what is kept of it. */
  lemma {:induction false} OnlyHead(s: seq<Item>, keep: Item -> bool, i: nat)
    requires i <= |s| && forall j :: 0 <= j < i ==> !keep(s[j])
    requires i < |s| ==> keep(s[i])
    ensures if i < |s| then Only(s, keep) != [] && Only(s, keep)[0] == s[i] else Only(s, keep) == []
    decreases |s|
  {
    if s != [] {
      var n := |s| - 1;
      if i < n { OnlyHead(s[..n], keep, i); } else { OnlyHead(s[..n], keep, n); }
    }
  }

  lemma {:induction false} FirstCommented(group: seq<Item>, i: nat)
    requires i <= |Sort(group, NotOlder)|
    requires forall j :: 0 <= j < i ==> !HasComment(Sort(group, NotOlder)[j])
    requires i < |Sort(group, NotOlder)| ==> HasComment(Sort(group, NotOlder)[i])
    ensures var commented := Only(group, HasComment);
      if i < |Sort(group, NotOlder)| then commented != [] && Newest(commented) == Sort(group, NotOlder)[i]
      else commented == []
  {
    var sorted, commented := Sort(group, NotOlder), Only(group, HasComment);
    OnlyHead(sorted, HasComment, i);
    SortOnly(group, HasComment);
    if commented != [] { SortHead(commented); } else { assert Sort(commented, NotOlder) == []; }
  }

  // ---------------------------------------------------------------- one row per issue, newest first

  lemma {:induction false} GroupMember(items: seq<Item>, key: string, x: Item)
    ensures x in Group(items, key) <==> x in items && KeyOf(x) == key
    decreases |items|
  {
    if items != [] {
      var n := |items| - 1;
      assert items == items[..n] + [items[n]];
      GroupMember(items[..n], key, x);
    }
  }

  lemma {:induction false} KeysFacts(items: seq<Item>, key: string)
    ensures Distinct(Keys(items))
    ensures key in Keys(items) <==> exists x :: x in items && KeyOf(x) == key
    decreases |items|
  {
    if items != [] {
      var n := |items| - 1;
      assert items == items[..n] + [items[n]];
      KeysFacts(items[..n], key);
      KeysFacts(items[..n], KeyOf(items[n]));
      if x :| x in items && KeyOf(x) == key { assert x in items[..n] || x == items[n]; }
    }
  }

  lemma {:induction false} NewestIs(group: seq<Item>)
    requires group != []
    ensures Newest(group) in group && forall x :: x in group ==> x.createdAt <= Newest(group).createdAt
    decreases |group|
  {
    var n := |group| - 1;
    assert group == group[..n] + [group[n]];
    if n > 0 { NewestIs(group[..n]); }
  }

  ghost predicate DistinctKeys(rows: seq<Item>) {
    forall i, j :: 0 <= i < j < |rows| ==> KeyOf(rows[i]) != KeyOf(rows[j])
  }

  lemma {:induction false} RowsFacts(active: seq<Item>)
    ensures |Rows(active)| == |Keys(active)| && DistinctKeys(Rows(active))
    ensures forall i :: 0 <= i < |Rows(active)| ==> KeyOf(Rows(active)[i]) == Keys(active)[i]
  {
    var keys, rows := Keys(active), Rows(active);
    KeysFacts(active, "");
    forall i | 0 <= i < |rows| ensures KeyOf(rows[i]) == keys[i] {
      GroupNonEmpty(active, keys[i]);
      NewestIs(Group(active, keys[i]));
      GroupMember(active, keys[i], Newest(Group(active, keys[i])));
    }
    forall i, j | 0 <= i < j < |rows| ensures KeyOf(rows[i]) != KeyOf(rows[j]) { assert keys[i] != keys[j]; }
  }

  /** `row` shows the group of `key`: its newest item, with the comment anchor. */
  ghost predicate Shows(items: seq<Item>, key: string, row: Item) {
    var group := Group(Only(items, IsActive), key);
    && group != [] && KeyOf(row) == key && row == WithAnchor(Newest(group), Anchor(group))
    && forall x :: x in items && !x.archived && KeyOf(x) == key ==> x.createdAt <= row.createdAt
  }

  /** The result is sorted newest first and has, for every key among the unarchived items, exactly one row. */
  lemma {:induction false} OneRowPerKey(items: seq<Item>)
    ensures Sorted(Dedup(items), NotOlder) && DistinctKeys(Dedup(items))
    ensures forall row :: row in Dedup(items) ==> Shows(items, KeyOf(row), row)
    ensures forall x :: x in items && !x.archived ==> exists row :: row in Dedup(items) && KeyOf(row) == KeyOf(x)
  {
    var active := Only(items, IsActive);
    var rows := Rows(active);
    RowsFacts(active);
    SortSorts(rows, NotOlder);
    SortKeepsKeys(rows);
    forall row | row in Dedup(items) ensures Shows(items, KeyOf(row), row) {
      SortMember(rows, NotOlder, row);
      var i :| 0 <= i < |rows| && rows[i] == row;
      RowShows(items, i);
    }
    forall x | x in items && !x.archived ensures exists row :: row in Dedup(items) && KeyOf(row) == KeyOf(x) {
      OnlyMember(items, IsActive, x);
      KeysFacts(active, KeyOf(x));
      var i :| 0 <= i < |Keys(active)| && Keys(active)[i] == KeyOf(x);
      SortMember(rows, NotOlder, rows[i]);
      assert rows[i] in Dedup(items) && KeyOf(rows[i]) == KeyOf(x);
    }
  }

  lemma {:induction false} RowShows(items: seq<Item>, i: nat)
    requires i < |Rows(Only(items, IsActive))|
    ensures Shows(items, KeyOf(Rows(Only(items, IsActive))[i]), Rows(Only(items, IsActive))[i])
  {
    var active := Only(items, IsActive);
    var key := Keys(active)[i];
    RowsFacts(active);
    GroupNonEmpty(active, key);
    var group := Group(active, key);
    NewestIs(group);
    forall x | x in items && !x.archived && KeyOf(x) == key ensures x.createdAt <= Newest(group).createdAt {
      OnlyMember(items, IsActive, x);
      GroupMember(active, key, x);
    }
  }

  lemma {:induction false} KeysMakeDistinct(s: seq<Item>)
    requires DistinctKeys(s)
    ensures Distinct(s)
  {
    forall i, j | 0 <= i < j < |s| ensures s[i] != s[j] { assert KeyOf(s[i]) != KeyOf(s[j]); }
  }

  lemma {:induction false} SortKeepsKeys(rows: seq<Item>)
    requires DistinctKeys(rows)
    ensures DistinctKeys(Sort(rows, NotOlder))
  {
    var r := Sort(rows, NotOlder);
    KeysMakeDistinct(rows);
    SortDistinct(rows, NotOlder);
    forall i, j | 0 <= i < j < |r| ensures KeyOf(r[i]) != KeyOf(r[j]) {
      SortMember(rows, NotOlder, r[i]);
      SortMember(rows, NotOlder, r[j]);
      var a :| 0 <= a < |rows| && rows[a] == r[i];
      var b :| 0 <= b < |rows| && rows[b] == r[j];
      assert r[i] != r[j];
    }
  }

  // ---------------------------------------------------------------- a second time

  lemma {:induction false} SingleGroups(rows: seq<Item>, i: nat)
    requires DistinctKeys(rows) && i < |rows|
    ensures Group(rows, KeyOf(rows[i])) == [rows[i]]
    decreases |rows|
  {
    var n := |rows| - 1;
    var key := KeyOf(rows[i]);
    if i < n {
      SingleGroups(rows[..n], i);
      assert rows[..n][i] == rows[i] && key != KeyOf(rows[n]);
      assert Group(rows, key) == [rows[i]] + [];
    } else {
      assert forall j :: 0 <= j < n ==> KeyOf(rows[j]) != key;
      NoGroup(rows[..n], key);
      assert Group(rows, key) == [] + [rows[i]];
    }
  }

  lemma {:induction false} NoGroup(rows: seq<Item>, key: string)
    requires forall j :: 0 <= j < |rows| ==> KeyOf(rows[j]) != key
    ensures Group(rows, key) == [] && key !in Keys(rows)
    decreases |rows|
  {
    if rows != [] { NoGroup(rows[..|rows| - 1], key); }
  }

  lemma {:induction false} KeysOfRows(rows: seq<Item>)
    requires DistinctKeys(rows)
    ensures |Keys(rows)| == |rows| && forall i :: 0 <= i < |rows| ==> Keys(rows)[i] == KeyOf(rows[i])
    decreases |rows|
  {
    if rows != [] {
      var n := |rows| - 1;
      KeysOfRows(rows[..n]);
      assert forall j :: 0 <= j < n ==> KeyOf(rows[j]) != KeyOf(rows[n]);
      NoGroup(rows[..n], KeyOf(rows[n]));
    }
  }

  lemma {:induction false} SingleRow(i: Item)
    ensures RowOf([i]) == i
  {
    assert [i][..0] == [];
    assert Only([], HasComment) == [];
    if HasComment(i) { assert Only([i], HasComment) == [i]; }
  }

  lemma {:induction false} RowsOfRows(rows: seq<Item>)
    requires DistinctKeys(rows)
    ensures Rows(rows) == rows
  {
    KeysOfRows(rows);
    forall i | 0 <= i < |rows| ensures Rows(rows)[i] == rows[i] {
      SingleGroups(rows, i);
      SingleRow(rows[i]);
    }
  }

  lemma {:induction false} OnlyAll(s: seq<Item>, keep: Item -> bool)
    requires forall x :: x in s ==> keep(x)
    ensures Only(s, keep) == s
    decreases |s|
  {
    if s != [] {
      var n := |s| - 1;
      assert s == s[..n] + [s[n]] && s[n] in s && forall x :: x in s[..n] ==> x in s;
      OnlyAll(s[..n], keep);
    }
  }

  /** Deduplicating a deduplicated inbox changes nothing. */
  lemma {:induction false} DedupIsIdempotent(items: seq<Item>)
    ensures Dedup(Dedup(items)) == Dedup(items)
  {
    var r := Dedup(items);
    OneRowPerKey(items);
    forall row | row in r ensures IsActive(row) {
      assert Shows(items, KeyOf(row), row);
      var group := Group(Only(items, IsActive), KeyOf(row));
      NewestIs(group);
      GroupMember(Only(items, IsActive), KeyOf(row), Newest(group));
      OnlyMember(items, IsActive, Newest(group));
    }
    OnlyAll(r, IsActive);
    RowsOfRows(r);
    SortKeeps(r, NotOlder);
  }

  // ---------------------------------------------------------------- the order of the input

  ghost predicate DistinctTimes(items: seq<Item>) {
    forall x, y :: x in items && y in items && !x.archived && !y.archived && x.createdAt == y.createdAt ==> x == y
  }

  /** With distinct times, the newest of a group depends only on what is in the group. */
  lemma {:induction false} NewestIsASet(s: seq<Item>, t: seq<Item>)
    requires s != [] && t != [] && forall x :: x in s <==> x in t
    requires forall x, y :: x in s && y in s && x.createdAt == y.createdAt ==> x == y
    ensures Newest(s) == Newest(t)
  {
    NewestIs(s);
    NewestIs(t);
    assert Newest(s) in t && Newest(t) in s;
  }

  lemma {:induction false} RowIsASet(s: seq<Item>, t: seq<Item>)
    requires s != [] && t != [] && forall x :: x in s <==> x in t
    requires forall x, y :: x in s && y in s && x.createdAt == y.createdAt ==> x == y
    ensures RowOf(s) == RowOf(t)
  {
    NewestIsASet(s, t);
    var a, b := Only(s, HasComment), Only(t, HasComment);
    forall x ensures x in a <==> x in s && HasComment(x) { OnlyMember(s, HasComment, x); }
    forall x ensures x in b <==> x in t && HasComment(x) { OnlyMember(t, HasComment, x); }
    if a != [] { assert a[0] in b; NewestIsASet(a, b); }
    if b != [] { assert b[0] in a; }
  }

  /** With distinct times, the inbox shown does not depend on the order in which the items arrive. */
  lemma {:induction false} OrderDoesNotMatter(one: seq<Item>, other: seq<Item>)
    requires DistinctTimes(one) && forall x :: x in one <==> x in other
    ensures Dedup(one) == Dedup(other)
  {
    var a, b := Only(one, IsActive), Only(other, IsActive);
    var r, s := Dedup(one), Dedup(other);
    forall x ensures x in a <==> x in b { OnlyMember(one, IsActive, x); OnlyMember(other, IsActive, x); }
    forall x ensures x in a ==> x in one && !x.archived { OnlyMember(one, IsActive, x); }
    forall row ensures row in r <==> row in s {
      SortMember(Rows(a), NotOlder, row);
      SortMember(Rows(b), NotOlder, row);
      if row in Rows(a) { RowCarries(a, b, row); }
      if row in Rows(b) { RowCarries(b, a, row); }
    }
    OneRowPerKey(one);
    OneRowPerKey(other);
    KeysMakeDistinct(r);
    KeysMakeDistinct(s);
    RowTimes(one);
    SortedIsUnique(r, s, NotOlder);
  }

  lemma {:induction false} RowCarries(a: seq<Item>, b: seq<Item>, row: Item)
    requires forall x :: x in a <==> x in b
    requires forall x, y :: x in a && y in a && x.createdAt == y.createdAt ==> x == y
    requires row in Rows(a)
    ensures row in Rows(b)
  {
    var i :| 0 <= i < |Rows(a)| && Rows(a)[i] == row;
    var key := Keys(a)[i];
    KeysFacts(a, key);
    KeysFacts(b, key);
    var j :| 0 <= j < |Keys(b)| && Keys(b)[j] == key;
    GroupNonEmpty(a, key);
    GroupNonEmpty(b, key);
    var g, h := Group(a, key), Group(b, key);
    forall x ensures x in g <==> x in h { GroupMember(a, key, x); GroupMember(b, key, x); }
    forall x, y | x in g && y in g && x.createdAt == y.createdAt ensures x == y {
      GroupMember(a, key, x);
      GroupMember(a, key, y);
    }
    RowIsASet(g, h);
    assert Rows(b)[j] == row;
  }

  /** Rows of different issues have different times. */
  lemma {:induction false} RowTimes(items: seq<Item>)
    requires DistinctTimes(items)
    ensures AntisymmetricOn(Dedup(items), NotOlder)
  {
    var r := Dedup(items);
    OneRowPerKey(items);
    forall x, y | x in r && y in r && NotOlder(x, y) && NotOlder(y, x) ensures x == y {
      assert Shows(items, KeyOf(x), x) && Shows(items, KeyOf(y), y);
      SourceOf(items, x);
      SourceOf(items, y);
      var i :| 0 <= i < |r| && r[i] == x;
      var j :| 0 <= j < |r| && r[j] == y;
    }
  }

  lemma {:induction false} SourceOf(items: seq<Item>, row: Item)
    requires Shows(items, KeyOf(row), row)
    ensures exists x :: x in items && !x.archived && x.createdAt == row.createdAt && KeyOf(x) == KeyOf(row)
  {
    var active := Only(items, IsActive);
    var group := Group(active, KeyOf(row));
    NewestIs(group);
    GroupMember(active, KeyOf(row), Newest(group));
    OnlyMember(items, IsActive, Newest(group));
  }
}
