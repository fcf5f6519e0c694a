/** The bookmark list: the ids of the questions the student has starred, in the order they
    were starred. */
module Bookmarks {
  import opened Seqs

  /** `ids.indexOf(id)`: the first position of id, or -1. */
  function IndexOf(ids: seq<string>, id: string): (i: int)
    ensures -1 <= i < |ids|
    ensures i == -1 <==> id !in ids
    ensures i >= 0 ==> ids[i] == id && id !in ids[..i]
  {
    if ids == [] then -1
    else if ids[0] == id then 0
    else
      var j := IndexOf(ids[1..], id);
      assert j >= 0 ==> ids[..j + 1] == [ids[0]] + ids[1..][..j];
      if j == -1 then -1 else j + 1
  }

  /** The list after toggleBookmark: an id not in it is appended; otherwise its first
      occurrence is cut out and everything else keeps its order. */
  function Toggled(ids: seq<string>, id: string): (r: seq<string>)
    ensures id !in ids ==> r == ids + [id]
    ensures id in ids ==> exists i :: 0 <= i < |ids| && ids[i] == id && id !in ids[..i] && r == ids[..i] + ids[i + 1..]
  {
    var i := IndexOf(ids, id);
    if i == -1 then ids + [id] else ids[..i] + ids[i + 1..]
  }

  /** A list without repeats keeps none, and then an id is bookmarked afterwards exactly when it
      was not before. */
  lemma ToggleDistinct(ids: seq<string>, id: string)
    requires Distinct(ids)
    ensures Distinct(Toggled(ids, id))
    ensures id in Toggled(ids, id) <==> id !in ids
    ensures forall o :: o != id ==> (o in Toggled(ids, id) <==> o in ids)
    ensures |Toggled(ids, id)| == if id in ids then |ids| - 1 else |ids| + 1
  {
    if id in ids {
      var i := IndexOf(ids, id);
      var r := ids[..i] + ids[i + 1..];
      assert ids == ids[..i] + [id] + ids[i + 1..];
      forall o | o != id ensures o in r <==> o in ids {
        assert o in ids <==> o in ids[..i] || o in ids[i + 1..];
      }
    }
  }

  /** Starring and then unstarring an id gives back the list as it was. */
  lemma ToggleTwiceRestores(ids: seq<string>, id: string)
    requires id !in ids
    ensures Toggled(Toggled(ids, id), id) == ids
  {
    var once := ids + [id];
    assert IndexOf(once, id) == |ids| by {
      assert once[..|ids|] == ids;
    }
    assert once[..|ids|] == ids;
  }

  /** Unstarring and then starring again moves the id to the end of the list. */
  lemma ToggleTwiceMovesToEnd(ids: seq<string>, id: string)
    requires Distinct(ids) && id in ids
    ensures var i := IndexOf(ids, id);
            Toggled(Toggled(ids, id), id) == ids[..i] + ids[i + 1..] + [id]
  {
    ToggleDistinct(ids, id);
  }

  /** The stored bookmark list. */
  class BookmarkStore {
    var ids: seq<string>

    constructor ()
      ensures ids == []
    {
      ids := [];
    }

    /** isBookmarked. */
    function IsBookmarked(id: string): (b: bool)
      reads this
      ensures b <==> id in ids
    {
      IndexOf(ids, id) != -1
    }

    /** getBookmarkCount. */
    function BookmarkCount(): (n: nat)
      reads this
      ensures n == |ids|
    {
      |ids|
    }

    /** toggleBookmark: true when the id is bookmarked afterwards because it was absent. */
    method ToggleBookmark(id: string) returns (added: bool)
      modifies this
      ensures ids == Toggled(old(ids), id)
      ensures added <==> id !in old(ids)
    {
      var idx := IndexOf(ids, id);
      if idx == -1 {
        ids := ids + [id];
        return true;
      } else {
        ids := ids[..idx] + ids[idx + 1..];
        return false;
      }
    }
  }
}
