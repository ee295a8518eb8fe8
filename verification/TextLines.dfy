/** Texts made of lines. */
module TextLines {
  import opened Bytes

  const LF: byte := 10

  /** The lines of a text. */
  function Lines(s: seq<byte>): (r: seq<seq<byte>>)
    ensures |r| >= 1
  {
    if s == [] then [[]]
    else
      var more := Lines(s[1..]);
      if s[0] == LF then [[]] + more else [[s[0]] + more[0]] + more[1..]
  }

  lemma {:induction false} LinesSplit(a: seq<byte>, b: seq<byte>)
    requires LF !in a
    ensures Lines(a + [LF] + b) == [a] + Lines(b)
  {
    if a == [] {
      assert a + [LF] + b == [LF] + b && ([LF] + b)[1..] == b;
    } else {
      LinesSplit(a[1..], b);
      assert (a + [LF] + b)[1..] == a[1..] + [LF] + b;
      assert [a[0]] + a[1..] == a;
    }
  }

  lemma {:induction false} LinesOne(a: seq<byte>)
    requires LF !in a
    ensures Lines(a) == [a]
  {
    if a != [] {
      LinesOne(a[1..]);
      assert [a[0]] + a[1..] == a;
    }
  }

  /** The first line of a text that has more than one. */
  function FirstLine(s: seq<byte>): (r: seq<byte>)
    requires LF in s
    ensures |r| < |s| && LF !in r && s == r + [LF] + s[|r| + 1..]
  {
    if s[0] == LF then [] else [s[0]] + FirstLine(s[1..])
  }
}
