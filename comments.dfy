/** Personal notes on questions: at most one trimmed, non-blank note per question id, with
    the time it was written. */
module Comments {
  import opened Wrappers
  import opened Seqs
  import Strings
  import Dicts

  datatype Comment = Comment(text: string, updatedAt: int)

  /** getComment on the stored notes: the note's text, or "" when there is none. */
  function CommentOf(d: Dicts.Dict<Comment>, questionId: string): (text: string)
    ensures questionId !in d.entries ==> text == ""
    ensures questionId in d.entries ==> text == d.entries[questionId].text
  {
    match Dicts.Get(d, questionId)
    case Some(c) => if c.text != "" then c.text else ""
    case None => ""
  }

  /** saveComment on the stored notes: the trimmed text is stored when it is not empty,
      and a blank text deletes the note. */
  function Saved(d: Dicts.Dict<Comment>, questionId: string, text: string, now: int): (r: Dicts.Dict<Comment>)
    requires Dicts.Valid(d)
    ensures Dicts.Valid(r)
    ensures Strings.AllWhitespace(text) ==> questionId !in r.entries
    ensures !Strings.AllWhitespace(text) ==> Dicts.Get(r, questionId) == Some(Comment(Strings.Trim(text), now))
    ensures forall o :: o != questionId ==> Dicts.Get(r, o) == Dicts.Get(d, o)
  {
    var t := Strings.Trim(text);
    if t != "" then Dicts.Put(d, questionId, Comment(t, now)) else Dicts.Remove(d, questionId)
  }

  /** Reading a note back gives the trimmed text that was saved, "" for a blank one. */
  lemma SaveThenGet(d: Dicts.Dict<Comment>, questionId: string, text: string, now: int)
    requires Dicts.Valid(d)
    ensures CommentOf(Saved(d, questionId, text, now), questionId) == Strings.Trim(text)
  {}

  /** Saving the text read back changes nothing but the time: a note is stored trimmed. */
  lemma SaveReadBack(d: Dicts.Dict<Comment>, questionId: string, text: string, now: int, later: int)
    requires Dicts.Valid(d)
    ensures var once := Saved(d, questionId, text, now);
            Dicts.Get(Saved(once, questionId, CommentOf(once, questionId), later), questionId)
              == if Strings.AllWhitespace(text) then None else Some(Comment(Strings.Trim(text), later))
  {
    var once := Saved(d, questionId, text, now);
    Strings.TrimIdempotent(text);
    if Strings.AllWhitespace(text) {
      assert CommentOf(once, questionId) == "";
    } else {
      assert CommentOf(once, questionId) == Strings.Trim(text);
    }
  }

  /** The stored notes. */
  class CommentStore {
    var comments: Dicts.Dict<Comment>

    ghost predicate Valid()
      reads this
    {
      Dicts.Valid(comments)
    }

    constructor ()
      ensures Valid() && comments.entries == map[]
    {
      comments := Dicts.Empty();
    }

    /** getComment. */
    function GetComment(questionId: string): (text: string)
      reads this
      ensures text == CommentOf(comments, questionId)
    {
      if questionId in comments.entries && comments.entries[questionId].text != "" then
        comments.entries[questionId].text
      else ""
    }

    /** saveComment, with the clock passed in. */
    method SaveComment(questionId: string, text: string, now: int)
      requires Valid()
      modifies this
      ensures Valid()
      ensures comments == Saved(old(comments), questionId, text, now)
    {
      var t := Strings.Trim(text);
      if t != "" {
        comments := Dicts.Put(comments, questionId, Comment(t, now));
      } else {
        comments := Dicts.Remove(comments, questionId);
      }
    }

    /** deleteComment: only that note goes. */
    method DeleteComment(questionId: string)
      requires Valid()
      modifies this
      ensures Valid()
      ensures questionId !in comments.entries
      ensures forall o :: o != questionId ==> Dicts.Get(comments, o) == Dicts.Get(old(comments), o)
      ensures comments.keys == Filter(old(comments).keys, x => x != questionId)
    {
      comments := Dicts.Remove(comments, questionId);
    }

    /** getCommentCount: one per question with a note. */
    function CommentCount(): (n: nat)
      requires Valid()
      reads this
      ensures n == |comments.entries|
    {
      Dicts.KeyCount(comments);
      |comments.keys|
    }
  }
}
