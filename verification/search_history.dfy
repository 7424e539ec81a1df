/**
  The recent-searches list: newest first, at most ten entries for new paths,
  one entry per path, with a favourite flag that may be absent. The clock and
  the identifier source are parameters.
 */
module SearchHistory {
  import opened Outcomes

  /** A `SearchHistoryItem`; an absent `isFavorite` is `None`. */
  datatype Item = Item(id: string, title: string, path: string, timestamp: int, isFavorite: Option<bool>)

  const MaxItems: nat := 10

  /** Newest first. */
  predicate SortedNewestFirst(items: seq<Item>) {
    forall i, j :: 0 <= i < j < |items| ==> items[i].timestamp >= items[j].timestamp
  }

  /** No path appears twice. */
  predicate UniquePaths(items: seq<Item>) {
    forall i, j :: 0 <= i < j < |items| ==> items[i].path != items[j].path
  }

  /** Places `x` before the first entry that is not newer than it: entries with the same
      timestamp keep `x` ahead of them, as a stable sort of `[x] + s` does. */
  function Insert(x: Item, s: seq<Item>): (r: seq<Item>)
    ensures |r| == |s| + 1
    ensures forall y :: y in r <==> y == x || y in s
  {
    if |s| == 0 || s[0].timestamp <= x.timestamp then [x] + s
    else [s[0]] + Insert(x, s[1..])
  }

  lemma {:induction false} InsertSorted(x: Item, s: seq<Item>)
    requires SortedNewestFirst(s)
    ensures SortedNewestFirst(Insert(x, s))
  {
    if |s| == 0 || s[0].timestamp <= x.timestamp {
      ConsSorted(x, s);
    } else {
      var rest := Insert(x, s[1..]);
      InsertSorted(x, s[1..]);
      forall k | 0 <= k < |rest|
        ensures rest[k].timestamp <= s[0].timestamp
      {
        if rest[k] != x {
          assert rest[k] in s[1..];
          var m :| 1 <= m < |s| && s[m] == rest[k];
        }
      }
      ConsSorted(s[0], rest);
    }
  }

  /** An entry at least as new as every entry of a sorted list may go in front of it. */
  lemma ConsSorted(h: Item, rest: seq<Item>)
    requires SortedNewestFirst(rest)
    requires forall k :: 0 <= k < |rest| ==> rest[k].timestamp <= h.timestamp
    ensures SortedNewestFirst([h] + rest)
  {
    var r := [h] + rest;
    forall i, j | 0 <= i < j < |r|
      ensures r[i].timestamp >= r[j].timestamp
    {
      assert r[j] == rest[j - 1];
      if i > 0 {
        assert r[i] == rest[i - 1];
      }
    }
  }

  lemma {:induction false} InsertPermutes(x: Item, s: seq<Item>)
    ensures multiset(Insert(x, s)) == multiset([x] + s)
  {
    if !(|s| == 0 || s[0].timestamp <= x.timestamp) {
      InsertPermutes(x, s[1..]);
      assert s == [s[0]] + s[1..];
    }
  }

  lemma {:induction false} InsertKeepsPathsUnique(x: Item, s: seq<Item>)
    requires UniquePaths(s) && forall k :: 0 <= k < |s| ==> s[k].path != x.path
    ensures UniquePaths(Insert(x, s))
  {
    if |s| == 0 || s[0].timestamp <= x.timestamp {
      ConsUniquePaths(x, s);
    } else {
      var rest := Insert(x, s[1..]);
      forall a, b | 0 <= a < b < |s[1..]|
        ensures s[1..][a].path != s[1..][b].path
      {
        assert s[1..][a] == s[a + 1] && s[1..][b] == s[b + 1];
      }
      InsertKeepsPathsUnique(x, s[1..]);
      forall k | 0 <= k < |rest|
        ensures rest[k].path != s[0].path
      {
        if rest[k] != x {
          assert rest[k] in s[1..];
          var m :| 1 <= m < |s| && s[m] == rest[k];
        }
      }
      ConsUniquePaths(s[0], rest);
    }
  }

  /** An entry whose path no entry of a list has may go in front of it. */
  lemma ConsUniquePaths(h: Item, rest: seq<Item>)
    requires UniquePaths(rest)
    requires forall k :: 0 <= k < |rest| ==> rest[k].path != h.path
    ensures UniquePaths([h] + rest)
  {
    var r := [h] + rest;
    forall i, j | 0 <= i < j < |r|
      ensures r[i].path != r[j].path
    {
      assert r[j] == rest[j - 1];
      if i > 0 {
        assert r[i] == rest[i - 1];
      }
    }
  }

  /** `sortByTimestamp`: a stable sort, newest first, of a copy of the list. */
  function SortByTimestamp(items: seq<Item>): (r: seq<Item>)
    ensures SortedNewestFirst(r)
    ensures multiset(r) == multiset(items) && |r| == |items|
    ensures forall y :: y in r <==> y in items
  {
    if |items| == 0 then []
    else
      var rest := SortByTimestamp(items[1..]);
      InsertSorted(items[0], rest);
      InsertPermutes(items[0], rest);
      assert items == [items[0]] + items[1..];
      Insert(items[0], rest)
  }

  /** Sorting keeps one entry per path. */
  lemma {:induction false} SortKeepsPathsUnique(items: seq<Item>)
    requires UniquePaths(items)
    ensures UniquePaths(SortByTimestamp(items))
  {
    if |items| > 0 {
      var rest := SortByTimestamp(items[1..]);
      assert UniquePaths(items[1..]) by {
        forall i, j | 0 <= i < j < |items[1..]|
          ensures items[1..][i].path != items[1..][j].path
        {
          assert items[1..][i] == items[i + 1] && items[1..][j] == items[j + 1];
        }
      }
      SortKeepsPathsUnique(items[1..]);
      forall k | 0 <= k < |rest|
        ensures rest[k].path != items[0].path
      {
        assert rest[k] in items[1..];
        var m :| 0 <= m < |items[1..]| && items[1..][m] == rest[k];
        assert items[m + 1] == rest[k];
      }
      InsertKeepsPathsUnique(items[0], rest);
    }
  }

  /** A list already newest first comes back as it is: the sort moves nothing it need not. */
  lemma {:induction false} SortKeepsSortedInput(items: seq<Item>)
    requires SortedNewestFirst(items)
    ensures SortByTimestamp(items) == items
  {
    if |items| > 0 {
      SortKeepsSortedInput(items[1..]);
      assert items == [items[0]] + items[1..];
    }
  }

  predicate HasPath(items: seq<Item>, path: string) {
    exists k :: 0 <= k < |items| && items[k].path == path
  }

  /** Every entry for `path` stamped with `now`, the rest as they were. */
  function Retime(items: seq<Item>, path: string, now: int): (r: seq<Item>)
    ensures |r| == |items|
    ensures forall k :: 0 <= k < |items| ==>
      r[k] == if items[k].path == path then items[k].(timestamp := now) else items[k]
  {
    seq(|items|, k requires 0 <= k < |items| => if items[k].path == path then items[k].(timestamp := now) else items[k])
  }

  /** `addSearch`, with `Date.now()` as `now` and `crypto.randomUUID()` as `freshId`. */
  function AddSearch(items: seq<Item>, title: string, path: string, now: int, freshId: string): (r: seq<Item>)
    ensures HasPath(items, path) ==> r == SortByTimestamp(Retime(items, path, now))
    ensures !HasPath(items, path) ==>
      |r| >= 1 && r[0] == Item(freshId, title, path, now, None) &&
      r[1..] == items[..if |items| < MaxItems - 1 then |items| else MaxItems - 1]
  {
    if HasPath(items, path) then SortByTimestamp(Retime(items, path, now))
    else ([Item(freshId, title, path, now, None)] + items)[..if |items| + 1 < MaxItems then |items| + 1 else MaxItems]
  }

  /** Searching a known path again adds nothing: the same entries, that path re-stamped,
      newest first. */
  lemma AddKnownPath(items: seq<Item>, title: string, path: string, now: int, freshId: string)
    requires HasPath(items, path)
    ensures var r := AddSearch(items, title, path, now, freshId);
      |r| == |items| && SortedNewestFirst(r) &&
      multiset(r) == multiset(Retime(items, path, now)) &&
      forall y :: y in r && y.path == path ==> y.timestamp == now
  {
    var retimed := Retime(items, path, now);
    var r := AddSearch(items, title, path, now, freshId);
    assert r == SortByTimestamp(retimed);
    forall y | y in r && y.path == path
      ensures y.timestamp == now
    {
      assert y in retimed;
      var k :| 0 <= k < |retimed| && retimed[k] == y;
    }
  }

  /** A new path goes to the front and the list never grows past ten. */
  lemma AddNewPathBounded(items: seq<Item>, title: string, path: string, now: int, freshId: string)
    requires !HasPath(items, path)
    ensures |AddSearch(items, title, path, now, freshId)| == if |items| + 1 < MaxItems then |items| + 1 else MaxItems
  {
  }

  /** A list of at most ten entries stays within ten. */
  lemma AddSearchBounded(items: seq<Item>, title: string, path: string, now: int, freshId: string)
    requires |items| <= MaxItems
    ensures |AddSearch(items, title, path, now, freshId)| <= MaxItems
  {
  }

  /** One entry per path is kept by every search. */
  lemma AddSearchKeepsPathsUnique(items: seq<Item>, title: string, path: string, now: int, freshId: string)
    requires UniquePaths(items)
    ensures UniquePaths(AddSearch(items, title, path, now, freshId))
  {
    if HasPath(items, path) {
      var retimed := Retime(items, path, now);
      assert UniquePaths(retimed) by {
        forall i, j | 0 <= i < j < |retimed|
          ensures retimed[i].path != retimed[j].path
        {
          assert retimed[i].path == items[i].path && retimed[j].path == items[j].path;
        }
      }
      SortKeepsPathsUnique(retimed);
    } else {
      var r := AddSearch(items, title, path, now, freshId);
      forall i, j | 0 <= i < j < |r|
        ensures r[i].path != r[j].path
      {
        if i == 0 {
          assert r[j] == items[j - 1];
        } else {
          assert r[i] == items[i - 1] && r[j] == items[j - 1];
        }
      }
    }
  }

  /** `removeSearch`: drop the entries with the id, keep the others in order. */
  function RemoveSearch(items: seq<Item>, id: string): (r: seq<Item>)
    ensures forall y :: y in r <==> y in items && y.id != id
    ensures |r| <= |items|
  {
    if |items| == 0 then []
    else if items[0].id == id then RemoveSearch(items[1..], id)
    else [items[0]] + RemoveSearch(items[1..], id)
  }

  /** Removing distributes over concatenation, so the kept entries keep their order. */
  lemma {:induction false} RemoveSearchAppend(a: seq<Item>, b: seq<Item>, id: string)
    ensures RemoveSearch(a + b, id) == RemoveSearch(a, id) + RemoveSearch(b, id)
  {
    if |a| == 0 {
      assert a + b == b;
    } else {
      assert (a + b)[1..] == a[1..] + b;
      RemoveSearchAppend(a[1..], b, id);
    }
  }

  /** Removing an id no entry has changes nothing. */
  lemma {:induction false} RemoveAbsentId(items: seq<Item>, id: string)
    requires forall k :: 0 <= k < |items| ==> items[k].id != id
    ensures RemoveSearch(items, id) == items
  {
    if |items| > 0 {
      RemoveAbsentId(items[1..], id);
      assert items == [items[0]] + items[1..];
    }
  }

  /** `!item.isFavorite`: an absent flag reads as false. */
  function Truthy(flag: Option<bool>): bool {
    flag == Some(true)
  }

  /** `toggleFavorite`. */
  function ToggleFavorite(items: seq<Item>, id: string): (r: seq<Item>)
    ensures |r| == |items|
    ensures forall k :: 0 <= k < |items| ==>
      if items[k].id == id then r[k] == items[k].(isFavorite := Some(!Truthy(items[k].isFavorite))) else r[k] == items[k]
  {
    seq(|items|, k requires 0 <= k < |items| =>
      if items[k].id == id then items[k].(isFavorite := Some(!Truthy(items[k].isFavorite))) else items[k])
  }

  /** Toggling twice restores every flag's truth value, and restores the list itself when the
      toggled entries had the flag set. */
  lemma ToggleTwice(items: seq<Item>, id: string)
    ensures var r := ToggleFavorite(ToggleFavorite(items, id), id);
      |r| == |items| && forall k :: 0 <= k < |items| ==> Truthy(r[k].isFavorite) == Truthy(items[k].isFavorite)
    ensures (forall k :: 0 <= k < |items| && items[k].id == id ==> items[k].isFavorite.Some?) ==>
      ToggleFavorite(ToggleFavorite(items, id), id) == items
  {
    var once := ToggleFavorite(items, id);
    var twice := ToggleFavorite(once, id);
    if forall k :: 0 <= k < |items| && items[k].id == id ==> items[k].isFavorite.Some? {
      forall k | 0 <= k < |items|
        ensures twice[k] == items[k]
      {
        if items[k].id == id {
          assert once[k].id == id;
          assert items[k].isFavorite.Some?;
          assert once[k].isFavorite == Some(!Truthy(items[k].isFavorite));
          assert twice[k].isFavorite == Some(!Truthy(once[k].isFavorite));
          if items[k].isFavorite.value {
            assert !Truthy(once[k].isFavorite);
          } else {
            assert Truthy(once[k].isFavorite);
          }
          assert twice[k].isFavorite == items[k].isFavorite;
          assert twice[k] == items[k].(isFavorite := twice[k].isFavorite);
        }
      }
    }
  }

  /** An entry that never had the flag comes back with it set to false. */
  lemma ToggleTwiceFillsAbsentFlag(items: seq<Item>, id: string, k: nat)
    requires k < |items| && items[k].id == id && items[k].isFavorite.None?
    ensures ToggleFavorite(ToggleFavorite(items, id), id)[k].isFavorite == Some(false)
  {
    assert ToggleFavorite(items, id)[k].id == id;
  }

  /** `clearHistory`. */
  function ClearHistory(items: seq<Item>): (r: seq<Item>)
    ensures r == []
  {
    []
  }
}
