/** The "my puzzles" page of the client: two paged lists, the caller's own puzzles and the public
  * ones, each with its page counter, loading flag and whether more pages may follow. A fetch is
  * split into its start (the guards and the request) and its end (the answer arriving, or the
  * request failing). */
module MyPuzzles {
  import opened Grid

  /** A listed puzzle; only the id matters to the page's bookkeeping. */
  datatype Listing = Listing(id: int, title: string, description: string, status: string)

  /** The two tabs: "my" and "public". */
  datatype Tab = Mine | Everyone

  /** The state one tab keeps in the page's `page`, `loading` and `hasMore` records and its list. */
  datatype Feed = Feed(puzzles: seq<Listing>, page: int, loading: bool, hasMore: bool)

  /** The page size the client asks for. */
  const LIMIT: int := 12

  predicate HasId(s: seq<Listing>, id: int)
  {
    exists k :: 0 <= k < |s| && s[k].id == id
  }

  /** No id occurs twice. */
  predicate DistinctIds(s: seq<Listing>)
  {
    forall i, j :: 0 <= i < j < |s| ==> s[i].id != s[j].id
  }

  /** The incoming puzzles whose id the list does not hold yet, in their order. */
  function Unseen(prev: seq<Listing>, incoming: seq<Listing>): seq<Listing>
  {
    if incoming == [] then []
    else (if HasId(prev, incoming[0].id) then [] else [incoming[0]]) + Unseen(prev, incoming[1..])
  }

  /** The list after a page arrives: the old list, then the unseen incoming puzzles. */
  function Merge(prev: seq<Listing>, incoming: seq<Listing>): (m: seq<Listing>)
    ensures |prev| <= |m| && m[..|prev|] == prev
  {
    prev + Unseen(prev, incoming)
  }

  /** What is appended comes from the page and is new to the list, and every new puzzle of the
    * page is appended. */
  lemma {:induction false} UnseenExactly(prev: seq<Listing>, incoming: seq<Listing>)
    ensures forall x :: x in Unseen(prev, incoming) <==> x in incoming && !HasId(prev, x.id)
  {
    if incoming != [] {
      UnseenExactly(prev, incoming[1..]);
      assert incoming == [incoming[0]] + incoming[1..];
    }
  }

  /** Nothing is lost: after the merge every puzzle of the page is present by id, and the old
    * list is kept in front, in order. */
  lemma MergeLosesNothing(prev: seq<Listing>, incoming: seq<Listing>)
    ensures Merge(prev, incoming)[..|prev|] == prev
    ensures forall k :: 0 <= k < |incoming| ==> HasId(Merge(prev, incoming), incoming[k].id)
  {
    var m := Merge(prev, incoming);
    UnseenExactly(prev, incoming);
    forall k | 0 <= k < |incoming|
      ensures HasId(m, incoming[k].id)
    {
      var x := incoming[k];
      if HasId(prev, x.id) {
        var j :| 0 <= j < |prev| && prev[j].id == x.id;
        assert m[j] == prev[j];
      } else {
        assert x in Unseen(prev, incoming);
        var j :| 0 <= j < |Unseen(prev, incoming)| && Unseen(prev, incoming)[j] == x;
        assert m[|prev| + j] == x;
      }
    }
  }

  /** Unseen puzzles of a page without repeated ids have distinct ids. */
  lemma {:induction false} UnseenDistinct(prev: seq<Listing>, incoming: seq<Listing>)
    requires DistinctIds(incoming)
    ensures DistinctIds(Unseen(prev, incoming))
  {
    if incoming != [] {
      var rest := incoming[1..];
      UnseenDistinct(prev, rest);
      UnseenExactly(prev, rest);
      var u := Unseen(prev, incoming);
      var head := if HasId(prev, incoming[0].id) then [] else [incoming[0]];
      assert u == head + Unseen(prev, rest);
      forall i, j | 0 <= i < j < |u|
        ensures u[i].id != u[j].id
      {
        if head != [] && i == 0 {
          var x := u[j];
          assert x in Unseen(prev, rest);
          assert x in rest;
          var k :| 0 <= k < |rest| && rest[k] == x;
          assert incoming[k + 1] == x;
        }
      }
    }
  }

  /** A list without repeated ids stays so when a page without repeated ids is merged in. */
  lemma MergeKeepsIdsDistinct(prev: seq<Listing>, incoming: seq<Listing>)
    requires DistinctIds(prev) && DistinctIds(incoming)
    ensures DistinctIds(Merge(prev, incoming))
  {
    var u := Unseen(prev, incoming);
    UnseenDistinct(prev, incoming);
    UnseenExactly(prev, incoming);
    var m := Merge(prev, incoming);
    forall i, j | 0 <= i < j < |m|
      ensures m[i].id != m[j].id
    {
      if i < |prev| && j >= |prev| {
        assert m[j] == u[j - |prev|];
        assert m[j] in u;
        assert !HasId(prev, m[j].id);
      } else if i >= |prev| {
        assert m[i] == u[i - |prev|] && m[j] == u[j - |prev|];
      }
    }
  }

  class MyPuzzlesPage {
    var mine: Feed
    var everyone: Feed

    /** Both lists empty at page 0, not loading, more expected. */
    constructor()
      ensures mine == Feed([], 0, false, true) && everyone == Feed([], 0, false, true)
    {
      mine := Feed([], 0, false, true);
      everyone := Feed([], 0, false, true);
    }

    function FeedOf(t: Tab): Feed
      reads this
    {
      if t == Mine then mine else everyone
    }

    /** The start of `fetchPuzzles`: nothing happens while the tab is loading or has no more
      * pages, nor for the caller's own tab when nobody is logged in; otherwise the tab is marked
      * loading and its current page is requested. */
    method StartFetch(t: Tab, isLoggedIn: bool) returns (request: Option<int>)
      modifies this
      ensures old(FeedOf(t)).loading || !old(FeedOf(t)).hasMore || (t == Mine && !isLoggedIn) ==>
        request == None && mine == old(mine) && everyone == old(everyone)
      ensures !old(FeedOf(t)).loading && old(FeedOf(t)).hasMore && (t == Everyone || isLoggedIn) ==>
        request == Some(old(FeedOf(t)).page) && FeedOf(t) == old(FeedOf(t)).(loading := true)
      ensures t == Mine ==> everyone == old(everyone)
      ensures t == Everyone ==> mine == old(mine)
    {
      var f := FeedOf(t);
      if f.loading || !f.hasMore {
        return None;
      }
      if t == Mine && !isLoggedIn {
        return None;
      }
      if t == Mine {
        mine := mine.(loading := true);
      } else {
        everyone := everyone.(loading := true);
      }
      return Some(f.page);
    }

    /** The end of `fetchPuzzles`: a page of puzzles is merged in without repeating an id, the
      * page counter moves on by one and more pages are expected exactly when the page was full;
      * on failure only the loading flag changes. Either way the tab stops loading and the other
      * tab is untouched. */
    method FinishFetch(t: Tab, answer: Option<seq<Listing>>)
      modifies this
      ensures answer.Some? ==>
        FeedOf(t) == Feed(Merge(old(FeedOf(t)).puzzles, answer.value), old(FeedOf(t)).page + 1, false,
                          |answer.value| == LIMIT)
      ensures answer.None? ==> FeedOf(t) == old(FeedOf(t)).(loading := false)
      ensures t == Mine ==> everyone == old(everyone)
      ensures t == Everyone ==> mine == old(mine)
    {
      var f := FeedOf(t);
      if answer.Some? {
        var incoming := answer.value;
        f := f.(puzzles := Merge(f.puzzles, incoming));
        f := f.(page := f.page + 1);
        f := f.(hasMore := |incoming| == LIMIT);
      }
      f := f.(loading := false);
      if t == Mine {
        mine := f;
      } else {
        everyone := f;
      }
    }
  }
}
