/** Byte strings cut at a separator: Go's strings.Split and bytes.Split with a one-byte separator. */
module Pieces {
  import opened Common

  /** One piece more than there are separators. */
  function Split(s: seq<Byte>, sep: Byte): (pieces: seq<seq<Byte>>)
    ensures pieces != []
  {
    if s == [] then [[]]
    else
      var rest := Split(s[1..], sep);
      if s[0] == sep then [[]] + rest else [[s[0]] + rest[0]] + rest[1..]
  }

  function Join(pieces: seq<seq<Byte>>, sep: Byte): seq<Byte>
    requires pieces != []
  {
    if |pieces| == 1 then pieces[0] else pieces[0] + [sep] + Join(pieces[1..], sep)
  }

  lemma {:induction false} JoinSplit(s: seq<Byte>, sep: Byte)
    ensures Join(Split(s, sep), sep) == s
  {
    if s != [] {
      JoinSplit(s[1..], sep);
      var rest := Split(s[1..], sep);
      var all := Split(s, sep);
      assert all[1..] == if s[0] == sep then rest else rest[1..];
    }
  }

  /** No piece holds a separator. */
  lemma {:induction false} SplitIsClean(s: seq<Byte>, sep: Byte, k: nat)
    requires k < |Split(s, sep)|
    ensures sep !in Split(s, sep)[k]
  {
    if s != [] {
      var rest := Split(s[1..], sep);
      if s[0] == sep {
        if k > 0 { SplitIsClean(s[1..], sep, k - 1); }
      } else {
        SplitIsClean(s[1..], sep, k);
      }
    }
  }

  lemma {:induction false} SplitPlainPrefix(x: seq<Byte>, rest: seq<Byte>, sep: Byte)
    requires sep !in x
    ensures Split(x + rest, sep) == [x + Split(rest, sep)[0]] + Split(rest, sep)[1..]
  {
    if x == [] {
      assert x + rest == rest && x + Split(rest, sep)[0] == Split(rest, sep)[0];
    } else {
      assert (x + rest)[1..] == x[1..] + rest;
      SplitPlainPrefix(x[1..], rest, sep);
      assert x[0] != sep;
      assert [x[0]] + (x[1..] + Split(rest, sep)[0]) == x + Split(rest, sep)[0];
    }
  }

  /** A clean piece and a separator in front add just that piece. */
  lemma SplitFirst(x: seq<Byte>, rest: seq<Byte>, sep: Byte)
    requires sep !in x
    ensures Split(x + [sep] + rest, sep) == [x] + Split(rest, sep)
  {
    SplitPlainPrefix(x, [sep] + rest, sep);
    assert x + [sep] + rest == x + ([sep] + rest);
    assert ([sep] + rest)[1..] == rest && x + [] == x;
  }

  lemma {:induction false} SplitJoin(pieces: seq<seq<Byte>>, sep: Byte)
    requires pieces != [] && forall k :: 0 <= k < |pieces| ==> sep !in pieces[k]
    ensures Split(Join(pieces, sep), sep) == pieces
  {
    if |pieces| == 1 {
      SplitPlainPrefix(pieces[0], [], sep);
      assert pieces[0] + [] == pieces[0];
    } else {
      SplitJoin(pieces[1..], sep);
      SplitFirst(pieces[0], Join(pieces[1..], sep), sep);
      assert pieces == [pieces[0]] + pieces[1..];
    }
  }
}
