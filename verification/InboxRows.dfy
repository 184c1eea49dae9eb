/** What the inbox shows for each issue, on the items' own fields (apps/mobile/lib/inbox-display.ts). */
module InboxRows {
  import opened Lists
  import opened InboxDisplay

  /** An unarchived item of this issue, or one without an issue under its own id. */
  predicate Concerns(i: Item, x: string) {
    !i.archived && (i.issueId == Some(x) || (i.issueId == None && i.id == x))
  }

  predicate Commented(i: Item) {
    i.details.Some? && "comment_id" in i.details.value && i.details.value["comment_id"] != ""
  }

  function About(x: string): Item -> bool {
    i => Concerns(i, x)
  }

  function CommentsOn(x: string): Item -> bool {
    i => Concerns(i, x) && Commented(i)
  }

  /** The newest of the chosen items, the first in the list among equals. */
  ghost predicate FirstNewest(items: seq<Item>, chosen: Item -> bool, i: nat) {
    && i < |items| && chosen(items[i])
    && forall j :: 0 <= j < |items| && chosen(items[j]) ==>
         items[j].createdAt < items[i].createdAt || (items[j].createdAt == items[i].createdAt && i <= j)
  }

  /**
   * The row is this item. If the item carries no comment anchor, not even an empty one, the row has that of the
   * newest of these items with a comment, if there is one.
   */
  ghost predicate IsRowOf(items: seq<Item>, x: string, item: Item, row: Item) {
    && row.(details := item.details) == item
    && if item.details.Some? && "comment_id" in item.details.value then row.details == item.details
       else if exists j: nat :: FirstNewest(items, CommentsOn(x), j)
       then exists j: nat :: (FirstNewest(items, CommentsOn(x), j)
         && row.details == Some((if item.details.Some? then item.details.value else map[])
                                ["comment_id" := items[j].details.value["comment_id"]]))
       else row.details == item.details
  }

  // ---------------------------------------------------------------- groups, on the fields

  lemma {:induction false} OnlyNewest(items: seq<Item>, chosen: Item -> bool) returns (i: nat)
    requires Only(items, chosen) != []
    ensures FirstNewest(items, chosen, i) && items[i] == Newest(Only(items, chosen))
    decreases |items|
  {
    var n := |items| - 1;
    var before := Only(items[..n], chosen);
    if before == [] {
      i := n;
      NoneChosen(items[..n], chosen);
    } else {
      i := OnlyNewest(items[..n], chosen);
      NewestSnoc(before, items[n]);
      FirstNewestSnoc(items, chosen, i);
      if chosen(items[n]) && items[n].createdAt > items[i].createdAt { i := n; }
    }
  }

  lemma {:induction false} NewestSnoc(group: seq<Item>, x: Item)
    requires group != []
    ensures Newest(group + [x]) == if x.createdAt > Newest(group).createdAt then x else Newest(group)
  {
    assert (group + [x])[..|group|] == group;
  }

  lemma {:induction false} FirstNewestSnoc(items: seq<Item>, chosen: Item -> bool, i: nat)
    requires items != [] && FirstNewest(items[..|items| - 1], chosen, i)
    ensures var n := |items| - 1;
      FirstNewest(items, chosen, if chosen(items[n]) && items[n].createdAt > items[i].createdAt then n else i)
  {
    var before := items[..|items| - 1];
    assert forall j :: 0 <= j < |before| ==> before[j] == items[j];
  }

  lemma {:induction false} NoneChosen(items: seq<Item>, chosen: Item -> bool)
    requires Only(items, chosen) == []
    ensures forall j :: 0 <= j < |items| ==> !chosen(items[j])
    decreases |items|
  {
    if items != [] { NoneChosen(items[..|items| - 1], chosen); }
  }

  lemma {:induction false} GroupIsOnly(items: seq<Item>, x: string, chosen: Item -> bool)
    requires forall i :: chosen(i) <==> Concerns(i, x)
    ensures Group(Only(items, IsActive), x) == Only(items, chosen)
    decreases |items|
  {
    if items != [] {
      var n := |items| - 1;
      GroupIsOnly(items[..n], x, chosen);
      var before := Only(items[..n], IsActive);
      if IsActive(items[n]) {
        assert (before + [items[n]])[..|before|] == before;
        assert Group(before, x) + [] == Group(before, x);
      }
    }
  }

  lemma {:induction false} OnlyTwice(items: seq<Item>, one: Item -> bool, other: Item -> bool, both: Item -> bool)
    requires forall i :: both(i) <==> one(i) && other(i)
    ensures Only(Only(items, one), other) == Only(items, both)
    decreases |items|
  {
    if items != [] {
      var n := |items| - 1;
      OnlyTwice(items[..n], one, other, both);
      var before := Only(items[..n], one);
      if one(items[n]) { assert (before + [items[n]])[..|before|] == before; }
    }
  }

  lemma {:induction false} OneFirstNewest(items: seq<Item>, chosen: Item -> bool, i: nat, j: nat)
    requires FirstNewest(items, chosen, i) && FirstNewest(items, chosen, j)
    ensures i == j
  {
  }

  /** The row of a group is that of its newest item. */
  lemma {:induction false} GroupRow(items: seq<Item>, x: string, i: nat)
    requires Group(Only(items, IsActive), x) != [] && FirstNewest(items, About(x), i)
    ensures IsRowOf(items, x, items[i], RowOf(Group(Only(items, IsActive), x)))
  {
    var concerned, commented := About(x), CommentsOn(x);
    var group := Group(Only(items, IsActive), x);
    GroupIsOnly(items, x, concerned);
    var k := OnlyNewest(items, concerned);
    OneFirstNewest(items, concerned, i, k);
    OnlyTwice(items, concerned, HasComment, commented);
    if Only(group, HasComment) != [] {
      var j := OnlyNewest(items, commented);
      CommentedRow(items, x, i, j);
    } else {
      NoneChosen(items, commented);
    }
  }

  lemma {:induction false} CommentedRow(items: seq<Item>, x: string, i: nat, j: nat)
    requires var group := Group(Only(items, IsActive), x);
      && group != [] && i < |items| && items[i] == Newest(group)
      && Only(group, HasComment) != [] && j < |items| && items[j] == Newest(Only(group, HasComment))
    requires FirstNewest(items, CommentsOn(x), j)
    ensures IsRowOf(items, x, items[i], RowOf(Group(Only(items, IsActive), x)))
  {
  }

  // ---------------------------------------------------------------- the inbox

  /** The inbox runs from the newest item to the oldest. */
  lemma {:induction false} NewestFirst(items: seq<Item>)
    ensures forall i, j :: 0 <= i < j < |Dedup(items)| ==> Dedup(items)[i].createdAt >= Dedup(items)[j].createdAt
  {
    OneRowPerKey(items);
  }

  /**
   * For every issue with an unarchived item the inbox has exactly one row, that of the newest item; an item
   * without an issue counts under its own id. It has no other rows.
   */
  lemma {:induction false} OneRowPerIssue(items: seq<Item>, x: string)
    ensures (exists item :: item in items && Concerns(item, x)) <==> exists row :: row in Dedup(items) && Concerns(row, x)
    ensures forall r, q :: 0 <= r < q < |Dedup(items)| ==> !Concerns(Dedup(items)[r], x) || !Concerns(Dedup(items)[q], x)
    ensures forall row :: row in Dedup(items) && Concerns(row, x) ==> ShowsNewest(items, x, row)
    ensures forall row :: row in Dedup(items) ==> !row.archived
  {
    OneRowPerKey(items);
    RowIffItem(items, x);
    forall row | row in Dedup(items) ensures !row.archived && (Concerns(row, x) ==> ShowsNewest(items, x, row)) {
      RowIsNewest(items, row);
    }
    forall r, q | 0 <= r < q < |Dedup(items)| ensures !Concerns(Dedup(items)[r], x) || !Concerns(Dedup(items)[q], x) {
      assert KeyOf(Dedup(items)[r]) != KeyOf(Dedup(items)[q]);
    }
  }

  lemma {:induction false} RowIffItem(items: seq<Item>, x: string)
    ensures (exists item :: item in items && Concerns(item, x)) <==> exists row :: row in Dedup(items) && Concerns(row, x)
  {
    if item :| item in items && Concerns(item, x) { var row := RowOfItem(items, x, item); }
    if row :| row in Dedup(items) && Concerns(row, x) { var item := ItemOfRow(items, x, row); }
  }

  lemma {:induction false} RowOfItem(items: seq<Item>, x: string, item: Item) returns (row: Item)
    requires item in items && Concerns(item, x)
    ensures row in Dedup(items) && Concerns(row, x)
  {
    OneRowPerKey(items);
    row :| row in Dedup(items) && KeyOf(row) == KeyOf(item);
    RowIsNewest(items, row);
  }

  lemma {:induction false} ItemOfRow(items: seq<Item>, x: string, row: Item) returns (item: Item)
    requires row in Dedup(items) && Concerns(row, x)
    ensures item in items && Concerns(item, x)
  {
    OneRowPerKey(items);
    RowIsNewest(items, row);
    var i: nat :| FirstNewest(items, About(x), i) && IsRowOf(items, x, items[i], row);
    item := items[i];
  }

  ghost predicate ShowsNewest(items: seq<Item>, x: string, row: Item) {
    exists i: nat :: FirstNewest(items, About(x), i) && IsRowOf(items, x, items[i], row)
  }

  lemma {:induction false} RowIsNewest(items: seq<Item>, row: Item)
    requires Shows(items, KeyOf(row), row)
    ensures !row.archived && ShowsNewest(items, KeyOf(row), row)
  {
    var x := KeyOf(row);
    GroupIsOnly(items, x, About(x));
    var i := OnlyNewest(items, About(x));
    GroupRow(items, x, i);
  }

  /** An item without an issue stands under its own id, and there is an unarchived item of an issue of this id. */
  ghost predicate Collide(items: seq<Item>, x: string) {
    exists a, b :: a in items && b in items && !a.archived && !b.archived
      && a.issueId == Some(x) && b.issueId == None && b.id == x
  }

  /** No two rows are of one issue. */
  lemma {:induction false} NoIssueTwice(items: seq<Item>, x: string)
    ensures forall r, q :: 0 <= r < q < |Dedup(items)| ==> Dedup(items)[r].issueId != Some(x) || Dedup(items)[q].issueId != Some(x)
  {
    OneRowPerIssue(items, x);
    forall r, q | 0 <= r < q < |Dedup(items)|
      ensures Dedup(items)[r].issueId != Some(x) || Dedup(items)[q].issueId != Some(x)
    {
      assert Dedup(items)[r] in Dedup(items) && Dedup(items)[q] in Dedup(items);
      assert !Concerns(Dedup(items)[r], x) || !Concerns(Dedup(items)[q], x);
    }
  }

  /**
   * An issue with an unarchived item has its row if and only if the newest item that concerns it is of the issue:
   * it is missing exactly if an item without an issue, whose own id is the issue's, is the newest of them.
   */
  lemma {:induction false} IssueIsShownIff(items: seq<Item>, x: string, i: nat)
    requires FirstNewest(items, About(x), i)
    ensures (exists row :: row in Dedup(items) && row.issueId == Some(x)) <==> items[i].issueId == Some(x)
    ensures (exists item :: item in items && !item.archived && item.issueId == Some(x)) && !Collide(items, x)
      ==> items[i].issueId == Some(x)
  {
    OneRowPerIssue(items, x);
    assert items[i] in items;
    var row :| row in Dedup(items) && Concerns(row, x);
    NewestIsShown(items, x, i, row);
    if other :| other in Dedup(items) && other.issueId == Some(x) { NewestIsShown(items, x, i, other); }
  }

  lemma {:induction false} NewestIsShown(items: seq<Item>, x: string, i: nat, row: Item)
    requires FirstNewest(items, About(x), i) && row in Dedup(items) && (row.issueId == Some(x) || Concerns(row, x))
    ensures Concerns(row, x) && IsRowOf(items, x, items[i], row) && row.issueId == items[i].issueId
  {
    OneRowPerIssue(items, x);
    var j: nat :| FirstNewest(items, About(x), j) && IsRowOf(items, x, items[j], row);
    OneFirstNewest(items, About(x), i, j);
  }
}
