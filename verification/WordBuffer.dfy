/** The buffer into which the body of an encoded word is decoded, piece by piece. It is
    enlarged before each piece, and the piece is chosen by the room that there is then; but
    base64 characters left over from the piece before are not allowed for, so a piece can
    give more octets than there is room for. */
module WordBuffer {
  import opened Bytes
  import opened Stream
  import Base64
  import QuotedPrintable

  // ------------------------------------------------------------ as functions

  function Grow(size: nat, wanted: nat): (r: nat)
    requires size >= 1
    ensures r >= wanted && r >= size
    decreases wanted - size, wanted
  {
    if size >= wanted then size else Grow(size * 2, wanted)
  }

  /** ntb_buffer_ensure_size: the size doubles until it is large enough. */
  function Ensure(size: nat, wanted: nat): (r: nat)
    ensures r >= wanted && r >= size
  {
    Grow(if size > 1 then size else 1, wanted)
  }

  /** NTB_BASE64_MAX_INPUT_FOR_SIZE, and no more than there is. */
  function PieceSize(free: nat, left: nat): (r: nat)
    ensures r <= left && (free >= 1 && left >= 1 ==> r >= 1)
  {
    if free * 4 / 3 > left then left else free * 4 / 3
  }

  /** The octets that a piece gives until it is used up or refused. */
  function Emitted(s: Base64.State, piece: seq<byte>): nat
    decreases |piece|
  {
    if piece == [] then 0
    else
      match Base64.Octet(s, piece[0])
      case None => 0
      case Some(first) => |first.1| + Emitted(first.0, piece[1..])
  }

  /** The alphabet characters of a piece that count: those before any padding. */
  function Letters(s: Base64.State, piece: seq<byte>): nat
    decreases |piece|
  {
    if piece == [] || s.nPadding > 0 || piece[0] == Base64.EQUALS then 0
    else (if Base64.AlphabetValue(piece[0]) >= 0 then 1 else 0) + Letters(s, piece[1..])
  }

  predicate PieceFits(s: Base64.State, piece: seq<byte>, free: nat)
  {
    Emitted(s, piece) <= free
  }

  /** Whether every piece of a body finds room, for a buffer of some size that already
      holds some octets. */
  function PiecesFit(size: nat, length: nat, s: Base64.State, body: seq<byte>): bool
    decreases |body|
  {
    if body == [] then true
    else
      var size' := Ensure(size, length + 8);
      var n := PieceSize(size' - length, |body|);
      PieceFits(s, body[..n], size' - length) &&
      match Feed(Base64.Octet, s, body[..n])
      case None => true
      case Some(r) => PiecesFit(size', length + |r.1|, r.0, body[n..])
  }

  // ---------------------------------------------------------- piece by piece

  method EnsureSize(size: nat, wanted: nat) returns (r: nat)
    ensures r == Ensure(size, wanted)
  {
    r := if size > 1 then size else 1;
    while r < wanted
      invariant r >= 1 && Grow(r, wanted) == Ensure(size, wanted)
      decreases wanted - r
    {
      r := r * 2;
    }
  }

  lemma JoinSlices(s: seq<byte>, i: nat, n: nat)
    requires i + n <= |s|
    ensures s[..i] + s[i..i + n] == s[..i + n]
    ensures s[..i + n] + s[i + n..] == s
    ensures s[i..][..n] == s[i..i + n] && s[i..][n..] == s[i + n..]
  {
  }

  lemma PiecesStep(size: nat, length: nat, s: Base64.State, body: seq<byte>, i: nat)
    requires i < |body|
    ensures var size' := Ensure(size, length + 8);
      var n := PieceSize(size' - length, |body| - i);
      PiecesFit(size, length, s, body[i..]) ==
      (PieceFits(s, body[i..i + n], size' - length) &&
       match Feed(Base64.Octet, s, body[i..i + n])
       case None => true
       case Some(r) => PiecesFit(size', length + |r.1|, r.0, body[i + n..]))
  {
    var size' := Ensure(size, length + 8);
    JoinSlices(body, i, PieceSize(size' - length, |body| - i));
  }

  /** Another piece, and what its being refused means. */
  lemma FeedNext(body: seq<byte>, i: nat, n: nat, s: Base64.State, octets: seq<byte>)
    requires i + n <= |body| && Feed(Base64.Octet, Base64.START, body[..i]) == Some((s, octets))
    ensures var r := Feed(Base64.Octet, s, body[i..i + n]);
      if r.None? then Feed(Base64.Octet, Base64.START, body).None?
      else Feed(Base64.Octet, Base64.START, body[..i + n]) == Some((r.value.0, octets + r.value.1))
  {
    JoinSlices(body, i, n);
    FeedConcat(Base64.Octet, Base64.START, body[..i], body[i..i + n]);
    FeedConcat(Base64.Octet, Base64.START, body[..i + n], body[i + n..]);
  }

  /** One more piece, once some have been accepted. */
  method FeedPiece(data: Base64.Decoder, body: seq<byte>, i: nat, size: nat, octets: seq<byte>)
    returns (got: Option<seq<byte>>, newSize: nat, n: nat, ghost fits: bool)
    requires i < |body| && Feed(Base64.Octet, Base64.START, body[..i]) == Some((data.Abs(), octets))
    modifies data
    ensures newSize >= size && 1 <= n <= |body| - i
    ensures got.None? ==> Feed(Base64.Octet, Base64.START, body).None?
    ensures got.Some? ==> Feed(Base64.Octet, Base64.START, body[..i + n]) == Some((data.Abs(), octets + got.value))
    ensures PiecesFit(size, |octets|, old(data.Abs()), body[i..]) ==
      (fits && (got.Some? ==> PiecesFit(newSize, |octets + got.value|, data.Abs(), body[i + n..])))
  {
    ghost var s := data.Abs();
    newSize := EnsureSize(size, |octets| + 8);
    n := PieceSize(newSize - |octets|, |body| - i);
    fits := PieceFits(s, body[i..i + n], newSize - |octets|);
    got := data.Push(body[i..i + n]);
    FeedNext(body, i, n, s, octets);
    PiecesStep(size, |octets|, s, body, i);
  }

  /** The loop of process_base64: all the pieces, unless one is refused. */
  method FeedPieces(data: Base64.Decoder, body: seq<byte>, size: nat)
    returns (got: Option<seq<byte>>, newSize: nat, ghost fits: bool)
    requires data.Abs() == Base64.START
    modifies data
    ensures var r := Feed(Base64.Octet, Base64.START, body);
      got.Some? == r.Some? && (got.Some? ==> r.value == (data.Abs(), got.value))
    ensures fits == PiecesFit(size, 0, Base64.START, body)
    ensures newSize >= size
  {
    var octets, i := [], 0;
    newSize, fits := size, true;
    ghost var all := PiecesFit(size, 0, data.Abs(), body);
    assert body[..0] == [] && body[0..] == body;
    while i < |body|
      invariant i <= |body| && newSize >= size
      invariant Feed(Base64.Octet, Base64.START, body[..i]) == Some((data.Abs(), octets))
      invariant all == (fits && PiecesFit(newSize, |octets|, data.Abs(), body[i..]))
    {
      var piece;
      ghost var fit;
      got, newSize, piece, fit := FeedPiece(data, body, i, newSize, octets);
      fits := fits && fit;
      if got.None? {
        return;
      }
      octets, i := octets + got.value, i + piece;
    }
    assert body[..i] == body;
    got := Some(octets);
  }

  /** process_base64, and whether it stayed within the buffer. */
  method ProcessBase64(body: seq<byte>, size: nat) returns (out: Option<seq<byte>>, newSize: nat, ghost fits: bool)
    ensures out == Base64.Decode(body)
    ensures fits == PiecesFit(size, 0, Base64.START, body)
    ensures newSize >= size
  {
    var data := new Base64.Decoder();
    var got;
    got, newSize, fits := FeedPieces(data, body, size);
    if got.None? {
      return None, newSize, fits;
    }
    newSize := EnsureSize(newSize, |got.value| + 3);
    var last := Base64.End(data.Abs());
    out := if last.None? then None else Some(got.value + last.value);
  }

  /** process_quoted_printable, which always stays within the buffer. */
  method ProcessQuotedPrintable(body: seq<byte>, size: nat) returns (out: Option<seq<byte>>, newSize: nat)
    ensures out == QuotedPrintable.Decode(true, body)
    ensures newSize >= size && (out.Some? ==> |out.value| <= newSize)
  {
    var data := new QuotedPrintable.Decoder(true);
    ghost var start := QuotedPrintable.Start(true);
    var octets, i := [], 0;
    newSize := size;
    assert body[..0] == [];
    while i < |body|
      invariant i <= |body| && newSize >= size && |octets| <= newSize
      invariant Feed(QuotedPrintable.Octet, start, body[..i]) == Some((data.Abs(), octets))
    {
      newSize := EnsureSize(newSize, |octets| + 8);
      var piece := newSize - |octets|;
      if piece > |body| - i {
        piece := |body| - i;
      }
      FeedConcat(QuotedPrintable.Octet, start, body[..i], body[i..i + piece]);
      JoinSlices(body, i, piece);
      QuotedPrintable.FeedShrinks(data.Abs(), body[i..i + piece]);
      var got := data.Push(body[i..i + piece]);
      if got.None? {
        FeedConcat(QuotedPrintable.Octet, start, body[..i + piece], body[i + piece..]);
        return None, newSize;
      }
      octets, i := octets + got.value, i + piece;
    }
    assert body[..i] == body;
    out := if QuotedPrintable.End(data.Abs()) then Some(octets) else None;
  }

  // -------------------------------------------------------- when a piece fits

  lemma {:induction false} PaddedEmits(s: Base64.State, piece: seq<byte>)
    requires s.nPadding > 0
    ensures Emitted(s, piece) == 0
    decreases |piece|
  {
    if piece != [] {
      var first := Base64.Octet(s, piece[0]);
      if first.Some? {
        PaddedEmits(first.value.0, piece[1..]);
      }
    }
  }

  lemma {:induction false} LettersSame(s: Base64.State, t: Base64.State, piece: seq<byte>)
    requires s.nPadding == t.nPadding
    ensures Letters(s, piece) == Letters(t, piece)
    decreases |piece|
  {
    if piece != [] {
      LettersSame(s, t, piece[1..]);
    }
  }

  /** A piece gives three octets for every four letters, counting those left over. */
  lemma {:induction false} EmittedIs(s: Base64.State, piece: seq<byte>)
    requires s.nChars < 4
    ensures Emitted(s, piece) == 3 * ((s.nChars + Letters(s, piece)) / 4)
    decreases |piece|
  {
    if s.nPadding > 0 {
      PaddedEmits(s, piece);
    } else if piece != [] {
      var first := Base64.Octet(s, piece[0]).value;
      if first.0.nPadding > 0 {
        PaddedEmits(first.0, piece[1..]);
      } else {
        EmittedIs(first.0, piece[1..]);
        LettersSame(s, first.0, piece[1..]);
      }
    }
  }

  /** A piece finds room exactly when there is room for three octets for every four of its
      letters and of those left over from before it. */
  lemma PieceFitsIff(s: Base64.State, piece: seq<byte>, free: nat)
    requires s.nChars < 4
    ensures PieceFits(s, piece, free) <==> 3 * ((s.nChars + Letters(s, piece)) / 4) <= free
    ensures PieceFits(s, piece, free) <==> s.nChars + Letters(s, piece) < 4 * (free / 3 + 1)
  {
    EmittedIs(s, piece);
    Groups(s.nChars + Letters(s, piece), free);
  }

  lemma Groups(letters: nat, free: nat)
    ensures 3 * (letters / 4) <= free <==> letters < 4 * (free / 3 + 1)
  {
    var q, f := letters / 4, free / 3;
    assert 3 * q <= free <==> q <= f;
    assert letters < 4 * (f + 1) <==> q <= f;
  }

  lemma {:induction false} LettersBound(s: Base64.State, piece: seq<byte>)
    ensures Letters(s, piece) <= |piece|
    decreases |piece|
  {
    if piece != [] {
      LettersBound(s, piece[1..]);
    }
  }

  /** A piece of the size chosen fits whenever nothing is left over from before. */
  lemma NothingLeftFits(s: Base64.State, piece: seq<byte>, free: nat)
    requires s.nChars == 0 && |piece| <= free * 4 / 3
    ensures PieceFits(s, piece, free)
  {
    EmittedIs(s, piece);
    LettersBound(s, piece);
  }

  // ---------------------------------------------------- the shortest that do not

  /** The first piece of a body is of ten characters. */
  lemma FirstPiece(body: seq<byte>)
    requires body != []
    ensures Ensure(0, 8) == 8 && PieceSize(8, |body|) == (if |body| < 10 then |body| else 10)
  {
    assert Grow(1, 8) == Grow(2, 8) == Grow(4, 8) == Grow(8, 8);
  }

  lemma FedSize(s: Base64.State, piece: seq<byte>)
    requires s.nChars < 4
    ensures var r := Feed(Base64.Octet, s, piece);
      r.Some? ==> r.value.0.nChars < 4 && |r.value.1| <= 3 * ((s.nChars + |piece|) / 4)
  {
    Base64.FeedSize(s, piece);
    Base64.AlphabetCountBound(piece);
  }

  /** What is left of a short body after its first piece fits in any case. */
  lemma ShortRestFits(length: nat, s: Base64.State, body: seq<byte>)
    requires s.nChars < 4 && |body| <= 8
    ensures PiecesFit(8, length, s, body)
  {
    if body != [] {
      var size := Ensure(8, length + 8);
      var free := size - length;
      var n := PieceSize(free, |body|);
      assert n == |body| && body[..n] == body && body[n..] == [];
      EmittedIs(s, body);
      LettersBound(s, body);
    }
  }

  /** Every body of fewer than 19 characters finds room in a new buffer. */
  lemma ShortBodiesFit(body: seq<byte>)
    requires |body| < 19
    ensures PiecesFit(0, 0, Base64.START, body)
  {
    if body != [] {
      FirstPiece(body);
      var n := PieceSize(8, |body|);
      NothingLeftFits(Base64.START, body[..n], 8);
      FedSize(Base64.START, body[..n]);
      var r := Feed(Base64.Octet, Base64.START, body[..n]);
      if r.Some? {
        ShortRestFits(|r.value.1|, r.value.0, body[n..]);
      }
    }
  }

  predicate AllLetters(body: seq<byte>)
  {
    forall i :: 0 <= i < |body| ==> Base64.AlphabetValue(body[i]) >= 0
  }

  /** Letters alone are never refused, and what they give is known. */
  lemma {:induction false} LettersFeed(s: Base64.State, piece: seq<byte>)
    requires s.nPadding == 0 && s.nChars < 4 && AllLetters(piece)
    ensures var r := Feed(Base64.Octet, s, piece);
      && r.Some? && r.value.0.nPadding == 0 && r.value.0.nChars == (s.nChars + |piece|) % 4
      && |r.value.1| == 3 * ((s.nChars + |piece|) / 4)
    ensures Letters(s, piece) == |piece|
    decreases |piece|
  {
    if piece != [] {
      LetterFeed(s, piece[0]);
      var first := Base64.Octet(s, piece[0]).value;
      LettersFeed(first.0, piece[1..]);
      LettersSame(s, first.0, piece[1..]);
      CarryOn(s.nChars, |piece| - 1);
    }
  }

  lemma LetterFeed(s: Base64.State, ch: byte)
    requires s.nPadding == 0 && s.nChars < 4 && Base64.AlphabetValue(ch) >= 0
    ensures var r := Base64.Octet(s, ch);
      && r.Some? && r.value.0.nPadding == 0 && r.value.0.nChars == (s.nChars + 1) % 4
      && |r.value.1| == 3 * ((s.nChars + 1) / 4)
  {
  }

  lemma CarryOn(c: nat, n: nat)
    requires c < 4
    ensures ((c + 1) % 4 + n) % 4 == (c + 1 + n) % 4
    ensures 3 * ((c + 1) / 4) + 3 * (((c + 1) % 4 + n) / 4) == 3 * ((c + 1 + n) / 4)
  {
  }

  /** One step through a body of letters. */
  lemma LettersStep(size: nat, length: nat, s: Base64.State, body: seq<byte>)
    requires s.nPadding == 0 && s.nChars < 4 && AllLetters(body) && body != []
    ensures var size' := Ensure(size, length + 8);
      var n := PieceSize(size' - length, |body|);
      var given := 3 * ((s.nChars + n) / 4);
      var r := Feed(Base64.Octet, s, body[..n]);
      && r.Some? && r.value.0.nPadding == 0 && r.value.0.nChars == (s.nChars + n) % 4
      && PiecesFit(size, length, s, body) ==
         (given <= size' - length && PiecesFit(size', length + given, r.value.0, body[n..]))
  {
    var n := PieceSize(Ensure(size, length + 8) - length, |body|);
    LettersFeed(s, body[..n]);
    EmittedIs(s, body[..n]);
  }

  lemma Doubled(size: nat, wanted: nat)
    requires 1 < size < wanted <= 2 * size
    ensures Ensure(size, wanted) == 2 * size
  {
    assert Grow(size, wanted) == Grow(size * 2, wanted);
  }

  /** From the third piece on, with three letters left over, 15 octets in the buffer and
      room for 17 more: 20 more letters fit and 21 do not. */
  lemma ThirdPiece(s: Base64.State, body: seq<byte>)
    requires s.nPadding == 0 && s.nChars == 3 && AllLetters(body)
    ensures PiecesFit(16, 15, s, body) <==> |body| <= 20
  {
    if body != [] {
      Doubled(16, 23);
      LettersStep(16, 15, s, body);
      var n := PieceSize(17, |body|);
      assert n == if |body| < 22 then |body| else 22;
      if |body| <= 22 {
        assert body[n..] == [];
      }
    }
  }

  lemma SecondPiece(s: Base64.State, body: seq<byte>)
    requires s.nPadding == 0 && s.nChars == 2 && AllLetters(body)
    ensures PiecesFit(8, 6, s, body) <==> |body| <= 33
  {
    if body != [] {
      Doubled(8, 14);
      LettersStep(8, 6, s, body);
      var n := PieceSize(10, |body|);
      assert n == if |body| < 13 then |body| else 13;
      if |body| > 13 {
        var r := Feed(Base64.Octet, s, body[..n]);
        ThirdPiece(r.value.0, body[n..]);
      } else {
        assert body[n..] == [];
      }
    }
  }

  lemma FromTheFirst(size: nat, length: nat, s: Base64.State, body: seq<byte>)
    requires size == length == 0 && s.nPadding == 0 && s.nChars == 0 && AllLetters(body)
    ensures PiecesFit(size, length, s, body) <==> |body| <= 43
  {
    if body != [] {
      FirstPiece(body);
      LettersStep(size, length, s, body);
      var n := PieceSize(8, |body|);
      if |body| > 10 {
        var r := Feed(Base64.Octet, s, body[..n]);
        SecondPiece(r.value.0, body[n..]);
      } else {
        assert body[n..] == [];
      }
    }
  }

  /** A body of letters alone finds room in a new buffer exactly if it has fewer than 44
      characters; any longer one overruns it, with 33 octets or more for 32. */
  lemma LettersFitIff(body: seq<byte>)
    requires AllLetters(body)
    ensures PiecesFit(0, 0, Base64.START, body) <==> |body| < 44
  {
    FromTheFirst(0, 0, Base64.START, body);
  }

  // ---------------------------------------------------------- encoded octets

  predicate AllPadding(pads: seq<byte>)
  {
    forall i :: 0 <= i < |pads| ==> pads[i] == Base64.EQUALS
  }

  lemma {:induction false} PaddingEmits(s: Base64.State, pads: seq<byte>)
    requires AllPadding(pads)
    ensures Emitted(s, pads) == 0
    decreases |pads|
  {
    if pads != [] {
      var first := Base64.Octet(s, pads[0]);
      if first.Some? {
        PaddingEmits(first.value.0, pads[1..]);
      }
    }
  }

  lemma {:induction false} PaddingFits(size: nat, length: nat, s: Base64.State, pads: seq<byte>)
    requires AllPadding(pads)
    ensures PiecesFit(size, length, s, pads)
    decreases |pads|
  {
    if pads != [] {
      var size' := Ensure(size, length + 8);
      var n := PieceSize(size' - length, |pads|);
      PaddingEmits(s, pads[..n]);
      var r := Feed(Base64.Octet, s, pads[..n]);
      if r.Some? {
        PaddingFits(size', length + |r.value.1|, r.value.0, pads[n..]);
      }
    }
  }

  lemma {:induction false} LettersBeforePadding(s: Base64.State, letters: seq<byte>, pads: seq<byte>)
    requires s.nPadding == 0 && AllLetters(letters) && AllPadding(pads)
    ensures Letters(s, letters + pads) == |letters|
    decreases |letters|
  {
    if letters == [] {
      assert letters + pads == pads;
    } else {
      assert (letters + pads)[0] == letters[0] && (letters + pads)[1..] == letters[1..] + pads;
      LettersBeforePadding(s, letters[1..], pads);
    }
  }

  /** The last letters and some padding in one piece. */
  lemma LastPiece(size: nat, length: nat, s: Base64.State, letters: seq<byte>, pads: seq<byte>)
    requires s.nPadding == 0 && s.nChars < 4 && letters != [] && AllLetters(letters) && AllPadding(pads)
    requires var size' := Ensure(size, length + 8); (size' - length) * 4 / 3 > |letters|
    ensures PiecesFit(size, length, s, letters + pads) ==
      (3 * ((s.nChars + |letters|) / 4) <= Ensure(size, length + 8) - length)
  {
    var size' := Ensure(size, length + 8);
    var free, body := size' - length, letters + pads;
    var n := PieceSize(free, |body|);
    var k := n - |letters|;
    assert body[..n] == letters + pads[..k] && body[n..] == pads[k..];
    LettersBeforePadding(s, letters, pads[..k]);
    EmittedIs(s, body[..n]);
    var r := Feed(Base64.Octet, s, body[..n]);
    if r.Some? {
      PaddingFits(size', length + |r.value.1|, r.value.0, pads[k..]);
    }
  }

  lemma LastPieceFree(size: nat, length: nat, s: Base64.State, letters: seq<byte>, pads: seq<byte>)
    requires s.nPadding == 0 && s.nChars < 4 && letters != [] && AllLetters(letters) && AllPadding(pads)
    requires var size' := Ensure(size, length + 8); (size' - length) * 4 / 3 > |letters|
    ensures PiecesFit(size, length, s, letters + pads) == PiecesFit(size, length, s, letters)
  {
    LastPiece(size, length, s, letters, pads);
    LastPiece(size, length, s, letters, []);
    assert letters + [] == letters;
  }

  lemma PaddingAlone(size: nat, length: nat, s: Base64.State, pads: seq<byte>)
    requires AllPadding(pads)
    ensures PiecesFit(size, length, s, [] + pads) == PiecesFit(size, length, s, [])
  {
    assert [] + pads == pads;
    PaddingFits(size, length, s, pads);
  }

  /** Padding behind the letters changes nothing. */
  lemma {:induction false} PaddingIsFree(size: nat, length: nat, s: Base64.State, letters: seq<byte>, pads: seq<byte>)
    requires s.nPadding == 0 && s.nChars < 4 && AllLetters(letters) && AllPadding(pads)
    ensures PiecesFit(size, length, s, letters + pads) == PiecesFit(size, length, s, letters)
    decreases |letters|
  {
    var size' := Ensure(size, length + 8);
    if letters == [] {
      PaddingAlone(size, length, s, pads);
    } else if (size' - length) * 4 / 3 > |letters| {
      LastPieceFree(size, length, s, letters, pads);
    } else {
      var n := (size' - length) * 4 / 3;
      LettersFeed(s, letters[..n]);
      var r := Feed(Base64.Octet, s, letters[..n]).value;
      PaddingIsFree(size', length + |r.1|, r.0, letters[n..], pads);
      WholePiece(size, length, s, letters, pads, n, r.0, r.1);
    }
  }

  lemma WholePiece(size: nat, length: nat, s: Base64.State, letters: seq<byte>, pads: seq<byte>, n: nat,
                   t: Base64.State, out: seq<byte>)
    requires letters != [] && n <= |letters| && Feed(Base64.Octet, s, letters[..n]) == Some((t, out))
    requires var free := Ensure(size, length + 8) - length; free * 4 / 3 == n
    requires var size' := Ensure(size, length + 8);
      PiecesFit(size', length + |out|, t, letters[n..] + pads) == PiecesFit(size', length + |out|, t, letters[n..])
    ensures PiecesFit(size, length, s, letters + pads) == PiecesFit(size, length, s, letters)
  {
    SamePiece(size, length, s, letters, pads, n);
    SamePiece(size, length, s, letters, [], n);
    assert letters + [] == letters && letters[n..] + [] == letters[n..];
  }

  /** A piece of letters alone is the same with or without the padding. */
  lemma SamePiece(size: nat, length: nat, s: Base64.State, letters: seq<byte>, pads: seq<byte>, n: nat)
    requires letters != [] && n <= |letters|
    requires var free := Ensure(size, length + 8) - length; free * 4 / 3 == n
    ensures var size' := Ensure(size, length + 8);
      PiecesFit(size, length, s, letters + pads) ==
      (PieceFits(s, letters[..n], size' - length) &&
       match Feed(Base64.Octet, s, letters[..n])
       case None => true
       case Some(r) => PiecesFit(size', length + |r.1|, r.0, letters[n..] + pads))
  {
    var body := letters + pads;
    assert body[..n] == letters[..n] && body[n..] == letters[n..] + pads;
  }

  lemma QuadLetters(value: nat)
    requires value < 0x100_0000
    ensures AllLetters(Base64.Quad(value))
  {
    forall v: nat | v < 64 ensures Base64.AlphabetValue(Base64.ToAlphabet(v)) >= 0 { Base64.AlphabetRoundTrip(v); }
  }

  /** What octets are encoded as: four letters for every three octets, and padding. */
  lemma {:induction false} EncodeShape(data: seq<byte>) returns (letters: seq<byte>, pads: seq<byte>)
    ensures Base64.Encode(data) == letters + pads && AllLetters(letters) && AllPadding(pads)
    ensures |letters| == (4 * |data| + 2) / 3
    decreases |data|
  {
    if |data| >= 3 {
      var quad := Base64.Quad(Base64.Group(data[0], data[1], data[2]));
      QuadLetters(Base64.Group(data[0], data[1], data[2]));
      letters, pads := EncodeShape(data[3..]);
      assert quad + (letters + pads) == quad + letters + pads;
      letters := quad + letters;
    } else if |data| == 0 {
      letters, pads := [], [];
    } else if |data| == 1 {
      QuadLetters(Base64.Group(data[0], 0, 0));
      letters, pads := Base64.Quad(Base64.Group(data[0], 0, 0))[..2], [Base64.EQUALS, Base64.EQUALS];
    } else {
      QuadLetters(Base64.Group(data[0], data[1], 0));
      letters, pads := Base64.Quad(Base64.Group(data[0], data[1], 0))[..3], [Base64.EQUALS];
    }
  }

  /** Octets that were encoded as the first word find room in the buffer exactly if there are
      at most 32 of them. */
  lemma EncodedFitsIff(data: seq<byte>)
    ensures PiecesFit(0, 0, Base64.START, Base64.Encode(data)) <==> |data| <= 32
  {
    var letters, pads := EncodeShape(data);
    PaddingIsFree(0, 0, Base64.START, letters, pads);
    LettersFitIff(letters);
  }

  predicate Ignored(ch: byte)
  {
    Base64.AlphabetValue(ch) < 0 && ch != Base64.EQUALS
  }

  lemma {:induction false} IgnoredFeed(s: Base64.State, piece: seq<byte>)
    requires forall i :: 0 <= i < |piece| ==> Ignored(piece[i])
    ensures Feed(Base64.Octet, s, piece) == Some((s, []))
    decreases |piece|
  {
    if piece != [] {
      IgnoredFeed(s, piece[1..]);
      var none: seq<byte> := [];
      assert none + none == none;
    }
  }

  lemma LettersThenIgnored(s: Base64.State, letters: seq<byte>, ignored: seq<byte>)
    requires s.nPadding == 0 && s.nChars == 0 && |letters| == 3 && AllLetters(letters)
    requires forall i :: 0 <= i < |ignored| ==> Ignored(ignored[i])
    ensures var r := Feed(Base64.Octet, s, letters + ignored);
      r.Some? && r.value.0.nPadding == 0 && r.value.0.nChars == 3 && r.value.1 == []
  {
    LettersFeed(s, letters);
    FeedConcat(Base64.Octet, s, letters, ignored);
    var r := Feed(Base64.Octet, s, letters).value;
    IgnoredFeed(r.0, ignored);
  }

  /** 19 characters can overrun a new buffer: three letters, seven characters that are
      ignored and nine letters, which complete three groups in the second piece, give 9
      octets for 8. */
  lemma NineteenOverrun(s: Base64.State, letters: seq<byte>, ignored: seq<byte>, more: seq<byte>)
    requires s.nPadding == 0 && s.nChars == 0
    requires |letters| == 3 && AllLetters(letters) && |more| == 9 && AllLetters(more)
    requires |ignored| == 7 && forall i :: 0 <= i < |ignored| ==> Ignored(ignored[i])
    ensures !PiecesFit(0, 0, s, letters + ignored + more)
  {
    var body := letters + ignored + more;
    assert body[..10] == letters + ignored && body[10..] == more;
    LettersThenIgnored(s, letters, ignored);
    var r := Feed(Base64.Octet, s, letters + ignored).value;
    TenFirst(0, 0, s, body, r.0);
    NineOverrun(8, 0, r.0, more);
  }

  lemma TenFirst(size: nat, length: nat, s: Base64.State, body: seq<byte>, t: Base64.State)
    requires size == length == 0 && |body| >= 10
    requires Feed(Base64.Octet, s, body[..10]) == Some((t, []))
    ensures PiecesFit(size, length, s, body) ==> PiecesFit(8, length, t, body[10..])
  {
    FirstPiece(body);
  }

  lemma NineOverrun(size: nat, length: nat, s: Base64.State, more: seq<byte>)
    requires size == 8 && length == 0 && s.nPadding == 0 && s.nChars == 3 && |more| == 9 && AllLetters(more)
    ensures !PiecesFit(size, length, s, more)
  {
    LettersStep(size, length, s, more);
  }
}
