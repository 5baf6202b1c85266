/** Text built by appending each piece followed by one space, as both extractors do. */
module TextJoin {

  /** The text `p0 + " " + p1 + " " + ...`: every piece is followed by exactly one space. */
  function Join(pieces: seq<string>): string
  {
    if pieces == [] then "" else pieces[0] + " " + Join(pieces[1..])
  }

  /** Total number of characters of the pieces themselves. */
  function SumLen(pieces: seq<string>): nat
  {
    if pieces == [] then 0 else |pieces[0]| + SumLen(pieces[1..])
  }

  /** Concatenation of strings is associative. */
  lemma ConcatAssoc(a: string, b: string, c: string)
    ensures (a + b) + c == a + (b + c)
  {
  }

  /** Joining distributes over concatenation of the piece lists. */
  lemma {:induction false} JoinAppend(a: seq<string>, b: seq<string>)
    ensures Join(a + b) == Join(a) + Join(b)
  {
    if a == [] {
      assert a + b == b;
    } else {
      assert (a + b)[1..] == a[1..] + b;
      JoinAppend(a[1..], b);
    }
  }

  /** Adding one piece at the end appends that piece and a space. */
  lemma JoinSnoc(a: seq<string>, p: string)
    ensures Join(a + [p]) == Join(a) + p + " "
  {
    JoinAppend(a, [p]);
    assert [p][1..] == [];
  }

  /** The joined text has one character per piece character plus one space per piece. */
  lemma {:induction false} JoinLength(pieces: seq<string>)
    ensures |Join(pieces)| == SumLen(pieces) + |pieces|
  {
    if pieces != [] {
      JoinLength(pieces[1..]);
    }
  }

  /** The joined text is empty exactly when there are no pieces, and otherwise ends in a space. */
  lemma {:induction false} JoinEndsInSpace(pieces: seq<string>)
    ensures Join(pieces) == "" <==> pieces == []
    ensures Join(pieces) != "" ==> Join(pieces)[|Join(pieces)| - 1] == ' '
  {
    if pieces != [] {
      var rest := pieces[1..];
      JoinEndsInSpace(rest);
      assert Join(pieces) == pieces[0] + " " + Join(rest);
      if Join(rest) == "" {
        assert Join(pieces) == pieces[0] + " ";
      } else {
        assert Join(pieces)[|Join(pieces)| - 1] == Join(rest)[|Join(rest)| - 1];
      }
    }
  }
}
