/** The proof-of-work threshold and its test, in 64-bit arithmetic. */
module PowTarget {
  import opened Bytes
  import opened Proto

  /** (length + extra) * trials, modulo 2^64; the two C ints are converted to
      uint64_t, so negative ones wrap. */
  function Divisor(length: nat, extra: int, trials: int): nat
  {
    ((length + extra) % TWO_64 * (trials % TWO_64)) % TWO_64
  }

  /** 2^64 does not fit in 64 bits, so the source divides 2^63, doubles the
      quotient and adds the half that the remainder may hide. */
  function TargetOf(divisor: nat): nat
    requires 0 < divisor < TWO_64
  {
    var target := (TWO_63 / divisor * 2) % TWO_64;
    if (TWO_63 % divisor * 2) % TWO_64 >= divisor then (target + 1) % TWO_64 else target
  }

  function CalculateTarget(length: nat, extra: int, trials: int): nat
    requires Divisor(length, extra, trials) > 0
  {
    TargetOf(Divisor(length, extra, trials))
  }

  /** The value a nonce scores for a payload whose hash is `inner`. */
  function PowValue(sha: seq<byte> -> seq<byte>, nonce: seq<byte>, inner: seq<byte>): nat
    requires IsSha512(sha)
  {
    FromBe(sha(sha(nonce + inner))[..8])
  }

  predicate PowCheck(sha: seq<byte> -> seq<byte>, payload: seq<byte>, extra: int, trials: int)
    requires IsSha512(sha) && |payload| >= 8
    requires Divisor(|payload|, extra, trials) > 0
  {
    PowValue(sha, payload[..8], sha(payload[8..])) <= CalculateTarget(|payload|, extra, trials)
  }

  /** Dividing half of n twice, with the remainder deciding the last unit. */
  lemma DivideTwice(half: nat, d: nat)
    requires 1 <= d
    ensures 2 * half / d == half / d * 2 + (if half % d * 2 >= d then 1 else 0)
  {
    var q, r := half / d, half % d;
    var e := if r * 2 >= d then 1 else 0;
    assert half == q * d + r;
    assert (q * 2 + e) * d == q * d * 2 + e * d;
    DivModUnique(2 * half, d, q * 2 + e, r * 2 - e * d);
  }

  lemma QuotientAtMost(n: nat, d: nat)
    requires 2 <= d
    ensures n / d * 2 <= n
  {
    assert n == n / d * d + n % d;
    MulMonotone(2, d, n / d);
  }

  /** The divisors for which the 64-bit computation is the floor of 2^64 / d are
      exactly those from 2 to 2^63. */
  lemma TargetExact(d: nat)
    requires 0 < d < TWO_64
    ensures TargetOf(d) == TWO_64 / d <==> 2 <= d <= TWO_63
  {
    var q, r := TWO_63 / d, TWO_63 % d;
    DivideTwice(TWO_63, d);
    if d == 1 {
      DivModUnique(TWO_64, 1, TWO_64, 0);
      DivModUnique(TWO_63, 1, TWO_63, 0);
    } else if d <= TWO_63 {
      QuotientAtMost(TWO_63, d);
      TargetNoWrap(d, q, r);
    } else {
      DivModUnique(TWO_63, d, 0, TWO_63);
      DivModUnique(TWO_64, d, 1, TWO_64 - d);
    }
  }

  lemma TargetNoWrap(d: nat, q: nat, r: nat)
    requires 2 <= d <= TWO_63 && q == TWO_63 / d && r == TWO_63 % d && q * 2 <= TWO_63
    ensures TargetOf(d) == q * 2 + (if r * 2 >= d then 1 else 0)
  {
    assert (q * 2) % TWO_64 == q * 2 && (r * 2) % TWO_64 == r * 2;
  }

  lemma QuotientAntitone(n: nat, d: nat, e: nat)
    requires 1 <= d <= e
    ensures n / e <= n / d
  {
    var p, q := n / d, n / e;
    assert n == p * d + n % d && n == q * e + n % e;
    if q > p {
      MulMonotone(d, e, q);
      MulMonotone(p + 1, q, d);
    }
  }

  /** A larger divisor never gives an easier threshold. */
  lemma TargetAntitone(d: nat, e: nat)
    requires 2 <= d <= e <= TWO_63
    ensures TargetOf(e) <= TargetOf(d)
  {
    TargetExact(d);
    TargetExact(e);
    QuotientAntitone(TWO_64, d, e);
  }

  lemma DivisorFits(length: nat, extra: nat, trials: nat)
    requires 1 <= length && 1 <= trials && (length + extra) * trials <= TWO_63
    ensures Divisor(length, extra, trials) == (length + extra) * trials
  {
    MulMonotone(1, trials, length + extra);
    MulMonotone(1, length + extra, trials);
  }

  lemma ProductOrder(a: nat, t: nat, a': nat, t': nat)
    requires 2 <= a <= a' && 1 <= t <= t'
    ensures 2 <= a * t <= a' * t'
  {
    MulMonotone(a, a', t);
    MulMonotone(t, t', a');
    MulMonotone(1, t, a);
  }

  /** The threshold never rises with the payload length, with the extra octets
      or with the number of trials per octet. */
  lemma TargetMonotone(length: nat, extra: nat, trials: nat, length': nat, extra': nat, trials': nat)
    requires length <= length' && extra <= extra' && trials <= trials'
    requires 2 <= length && 1 <= trials && (length' + extra') * trials' <= TWO_63
    ensures Divisor(length, extra, trials) > 0 && Divisor(length', extra', trials') > 0
    ensures CalculateTarget(length', extra', trials') <= CalculateTarget(length, extra, trials)
  {
    ProductOrder(length + extra, trials, length' + extra', trials');
    DivisorFits(length, extra, trials);
    DivisorFits(length', extra', trials');
    TargetAntitone(Divisor(length, extra, trials), Divisor(length', extra', trials'));
  }

  /** The difficulty a sender uses: the recipient's, but never below the
      network's minimum. */
  function Clamp(value: int, minimum: nat): int
  {
    if value < minimum then minimum else value
  }

  /** A nonce that solves the work at the recipient's clamped difficulty, once
      spliced big-endian in front of the rest, passes every node's test. */
  lemma ClampedNoncePasses(sha: seq<byte> -> seq<byte>, rest: seq<byte>, nonce: nat, extra: int, trials: int)
    requires IsSha512(sha) && nonce < TWO_64
    requires extra < TWO_31 && trials < TWO_31 && |rest| + 8 <= TWO_31
    ensures var e, t := Clamp(extra, MIN_EXTRA_BYTES), Clamp(trials, MIN_TRIALS);
      && Divisor(|rest| + 8, e, t) > 0
      && Divisor(|rest| + 8, MIN_EXTRA_BYTES, MIN_TRIALS) > 0
      && (PowValue(sha, Be(nonce, 8), sha(rest)) <= CalculateTarget(|rest| + 8, e, t) ==>
          PowCheck(sha, Be(nonce, 8) + rest, MIN_EXTRA_BYTES, MIN_TRIALS))
  {
    var e, t := Clamp(extra, MIN_EXTRA_BYTES), Clamp(trials, MIN_TRIALS);
    var length := |rest| + 8;
    MulMonotone(length + e, TWO_32, t);
    MulMonotone(t, TWO_31, TWO_32);
    TargetMonotone(length, MIN_EXTRA_BYTES, MIN_TRIALS, length, e, t);
    var payload := Be(nonce, 8) + rest;
    assert payload[..8] == Be(nonce, 8) && payload[8..] == rest;
  }

  /** It also meets what the recipient itself asks for: the difficulty that a sender uses is
      never below that. */
  lemma ClampedNonceSuffices(sha: seq<byte> -> seq<byte>, rest: seq<byte>, nonce: nat, extra: nat, trials: nat)
    requires IsSha512(sha) && nonce < TWO_64
    requires extra < TWO_31 && 1 <= trials < TWO_31 && |rest| + 8 <= TWO_31
    ensures var e, t := Clamp(extra, MIN_EXTRA_BYTES), Clamp(trials, MIN_TRIALS);
      && Divisor(|rest| + 8, e, t) > 0 && Divisor(|rest| + 8, extra, trials) > 0
      && (PowValue(sha, Be(nonce, 8), sha(rest)) <= CalculateTarget(|rest| + 8, e, t) ==>
          PowCheck(sha, Be(nonce, 8) + rest, extra, trials))
  {
    var e, t := Clamp(extra, MIN_EXTRA_BYTES), Clamp(trials, MIN_TRIALS);
    var length := |rest| + 8;
    MulMonotone(length + e, TWO_32, t);
    MulMonotone(t, TWO_31, TWO_32);
    TargetMonotone(length, extra, trials, length, e, t);
    var payload := Be(nonce, 8) + rest;
    assert payload[..8] == Be(nonce, 8) && payload[8..] == rest;
  }

  /** The test at the network's minimum, in numbers: the value must not be above the floor of
      2^64 / ((length + 14000) * 320). */
  lemma MinimumIs(sha: seq<byte> -> seq<byte>, payload: seq<byte>)
    requires IsSha512(sha) && 8 <= |payload| < TWO_32
    ensures Divisor(|payload|, MIN_EXTRA_BYTES, MIN_TRIALS) > 0
    ensures PowCheck(sha, payload, MIN_EXTRA_BYTES, MIN_TRIALS) <==>
      FromBe(sha(sha(payload[..8] + sha(payload[8..])))[..8]) <= TWO_64 / ((|payload| + 14000) * 320)
  {
    DivisorFits(|payload|, MIN_EXTRA_BYTES, MIN_TRIALS);
    TargetExact((|payload| + 14000) * 320);
  }
}
