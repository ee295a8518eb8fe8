/** Decoders that are fed one piece of input at a time. */
module Stream {
  import opened Bytes

  /** One octet of input either is an error or leads to a new state and output. */
  type Step<!S> = (S, byte) -> Option<(S, seq<byte>)>

  /** A whole piece of input, and the concatenated output. */
  function Feed<S>(step: Step<S>, s: S, input: seq<byte>): Option<(S, seq<byte>)>
  {
    if input == [] then Some((s, []))
    else
      match step(s, input[0])
      case None => None
      case Some(first) =>
        match Feed(step, first.0, input[1..])
        case None => None
        case Some(more) => Some((more.0, first.1 + more.1))
  }

  /** Successive pieces; an error in one is final. */
  function FeedAll<S>(step: Step<S>, s: S, pieces: seq<seq<byte>>): Option<(S, seq<byte>)>
  {
    if pieces == [] then Some((s, []))
    else
      match Feed(step, s, pieces[0])
      case None => None
      case Some(first) =>
        match FeedAll(step, first.0, pieces[1..])
        case None => None
        case Some(more) => Some((more.0, first.1 + more.1))
  }

  /** What two pieces in a row amount to. */
  function Then<S>(step: Step<S>, first: Option<(S, seq<byte>)>, input: seq<byte>): Option<(S, seq<byte>)>
  {
    match first
    case None => None
    case Some(f) =>
      match Feed(step, f.0, input)
      case None => None
      case Some(more) => Some((more.0, f.1 + more.1))
  }

  lemma {:induction false} FeedConcat<S>(step: Step<S>, s: S, a: seq<byte>, b: seq<byte>)
    ensures Feed(step, s, a + b) == Then(step, Feed(step, s, a), b)
    decreases |a|
  {
    if a == [] {
      assert a + b == b;
      assert Feed(step, s, a) == Some((s, []));
      match Feed(step, s, b)
      case None =>
      case Some(r) => assert [] + r.1 == r.1;
    } else {
      assert (a + b)[0] == a[0] && (a + b)[1..] == a[1..] + b;
      match step(s, a[0])
      case None =>
      case Some(first) =>
        FeedConcat(step, first.0, a[1..], b);
        match Feed(step, first.0, a[1..])
        case None =>
        case Some(more) =>
          match Feed(step, more.0, b)
          case None =>
          case Some(last) => assert first.1 + (more.1 + last.1) == first.1 + more.1 + last.1;
    }
  }

  lemma FeedOne<S>(step: Step<S>, s: S, ch: byte)
    ensures Feed(step, s, [ch]) == step(s, ch)
  {
    assert [ch][1..] == [];
    match step(s, ch)
    case None =>
    case Some(first) =>
      assert Feed(step, first.0, []) == Some((first.0, []));
      assert first.1 + [] == first.1;
  }

  /** However the input is cut into pieces, the outcome is that of the whole. */
  lemma {:induction false} AnySplit<S>(step: Step<S>, s: S, pieces: seq<seq<byte>>)
    ensures FeedAll(step, s, pieces) == Feed(step, s, Flatten(pieces))
    decreases |pieces|
  {
    if pieces != [] {
      FeedConcat(step, s, pieces[0], Flatten(pieces[1..]));
      match Feed(step, s, pieces[0])
      case None =>
      case Some(first) => AnySplit(step, first.0, pieces[1..]);
    }
  }

  // A decoder's methods work on a piece from its start. They have got as far as n when
  // what remains is to feed the rest to the state they left.

  ghost predicate Went<S>(step: Step<S>, s: S, input: seq<byte>, t: S, n: nat, out: seq<byte>)
  {
    n <= |input| && Feed(step, s, input) == Then(step, Some((t, out)), input[n..])
  }

  lemma WentNowhere<S>(step: Step<S>, s: S, input: seq<byte>)
    ensures Went(step, s, input, s, 0, [])
  {
    assert input[0..] == input;
    match Feed(step, s, input)
    case None =>
    case Some(r) => assert [] + r.1 == r.1;
  }

  lemma WentOne<S>(step: Step<S>, s: S, input: seq<byte>, t: S, n: nat, out: seq<byte>)
    requires Went(step, s, input, t, n, out) && n < |input|
    ensures step(t, input[n]).None? ==> Feed(step, s, input).None?
    ensures step(t, input[n]).Some? ==>
      var r := step(t, input[n]).value;
      Went(step, s, input, r.0, n + 1, out + r.1)
  {
    assert input[n..][0] == input[n] && input[n..][1..] == input[n + 1..];
    match step(t, input[n])
    case None =>
    case Some(r) =>
      match Feed(step, r.0, input[n + 1..])
      case None =>
      case Some(more) => assert out + (r.1 + more.1) == out + r.1 + more.1;
  }

  /** Going on from where another method has got to. */
  lemma WentOn<S>(step: Step<S>, s: S, input: seq<byte>, t: S, n: nat, out: seq<byte>, u: S, m: nat, more: seq<byte>)
    requires Went(step, s, input, t, n, out) && Went(step, t, input[n..], u, m, more)
    ensures Went(step, s, input, u, n + m, out + more)
  {
    assert input[n..][m..] == input[n + m..];
    match Feed(step, u, input[n + m..])
    case None =>
    case Some(r) => assert out + (more + r.1) == out + more + r.1;
  }

  lemma WentThrough<S>(step: Step<S>, s: S, input: seq<byte>, t: S, out: seq<byte>)
    requires Went(step, s, input, t, |input|, out)
    ensures Feed(step, s, input) == Some((t, out))
  {
    assert input[|input|..] == [];
    assert out + [] == out;
  }

  lemma WentPart<S>(step: Step<S>, s: S, input: seq<byte>, t: S, n: nat, out: seq<byte>)
    requires n <= |input| && Feed(step, s, input[..n]) == Some((t, out))
    ensures Went(step, s, input, t, n, out)
  {
    assert input == input[..n] + input[n..];
    FeedConcat(step, s, input[..n], input[n..]);
  }
}
