/** The octets of a connection: long lists of hashes are split into several commands
    while they are written, and commands are put together again from whatever pieces a
    socket delivers. */
module Connection {
  import opened Bytes
  import opened Proto

  // --------------------------------------------------------------- receiving

  /** How the next command is found in the buffered octets. */
  type Framer = seq<byte> -> Framing

  /** Whether the handler of a command goes on. */
  type Handler = Command -> bool

  ghost predicate Moves(next: Framer)
  {
    forall s :: next(s).Framed? ==> 0 < next(s).size <= |s|
  }

  ghost predicate StableAt(next: Framer, s: seq<byte>, tail: seq<byte>)
  {
    !next(s).Incomplete? ==> next(s + tail) == next(s)
  }

  ghost predicate Stable(next: Framer)
  {
    Moves(next) && forall s, tail :: StableAt(next, s, tail)
  }

  /** The commands handled, what stays in the buffer, and whether there was an error. */
  datatype Extraction = Extraction(commands: seq<Command>, rest: seq<byte>, broken: bool)

  ghost function Extract(next: Framer, handler: Handler, s: seq<byte>): Extraction
    requires Moves(next)
    decreases |s|
  {
    match next(s)
    case Incomplete => Extraction([], s, false)
    case Broken => Extraction([], s, true)
    case Framed(c, size) =>
      if !handler(c) then Extraction([], s, true)
      else
        var more := Extract(next, handler, s[size..]);
        more.(commands := [c] + more.commands)
  }

  /** What an extraction becomes when more octets arrive. */
  ghost function Continued(next: Framer, handler: Handler, e: Extraction, tail: seq<byte>): Extraction
    requires Moves(next)
  {
    var more := Extract(next, handler, e.rest + tail);
    more.(commands := e.commands + more.commands)
  }

  lemma {:induction false} ExtractMore(next: Framer, handler: Handler, s: seq<byte>, tail: seq<byte>)
    requires Stable(next)
    ensures var e := Extract(next, handler, s);
      Extract(next, handler, s + tail) == Continued(next, handler, e, tail)
    decreases |s|
  {
    assert StableAt(next, s, tail);
    var f := next(s);
    if f.Framed? && handler(f.command) {
      assert (s + tail)[f.size..] == s[f.size..] + tail;
      ExtractMore(next, handler, s[f.size..], tail);
      var e := Extract(next, handler, s[f.size..]);
      var more := Extract(next, handler, e.rest + tail);
      assert [f.command] + (e.commands + more.commands) == [f.command] + e.commands + more.commands;
    } else {
      var more := Extract(next, handler, s + tail);
      assert [] + more.commands == more.commands;
    }
  }

  /** An error is final. */
  lemma {:induction false} BrokenStays(next: Framer, handler: Handler, s: seq<byte>, tail: seq<byte>)
    requires Stable(next) && Extract(next, handler, s).broken
    ensures var e, e' := Extract(next, handler, s), Extract(next, handler, s + tail);
      e'.broken && e'.commands == e.commands
    decreases |s|
  {
    assert StableAt(next, s, tail);
    var f := next(s);
    if f.Framed? && handler(f.command) {
      assert (s + tail)[f.size..] == s[f.size..] + tail;
      BrokenStays(next, handler, s[f.size..], tail);
    }
  }

  class Receiver {
    const next: Framer
    const handler: Handler
    var inBuf: seq<byte>
    var handled: seq<Command>
    var broken: bool

    constructor (next: Framer, handler: Handler)
      ensures this.next == next && this.handler == handler && inBuf == [] && handled == [] && !broken
    {
      this.next, this.handler, inBuf, handled, broken := next, handler, [], [], false;
    }

    /** process_commands */
    method ProcessCommands()
      requires Moves(next) && !broken
      modifies this
      ensures var e := Extract(next, handler, old(inBuf));
        && handled == old(handled) + e.commands && broken == e.broken
        && (!broken ==> inBuf == e.rest)
    {
      var data := inBuf;
      ghost var e := Extract(next, handler, inBuf);
      while true
        invariant !broken && inBuf == old(inBuf)
        invariant var more := Extract(next, handler, data);
          && old(handled) + e.commands == handled + more.commands
          && e.rest == more.rest && e.broken == more.broken
        decreases |data|
      {
        var f := next(data);
        if f.Incomplete? {
          break;
        }
        if f.Broken? || !handler(f.command) {
          broken := true;
          return;
        }
        ghost var more := Extract(next, handler, data[f.size..]);
        assert handled + ([f.command] + more.commands) == handled + [f.command] + more.commands;
        handled := handled + [f.command];
        data := data[f.size..];
      }
      inBuf := data;
    }

    /** handle_read: after an error the socket is no longer polled. */
    method Read(got: seq<byte>, ghost before: seq<byte>)
      requires Stable(next) && HasRead(before)
      modifies this
      ensures HasRead(before + got)
    {
      if broken {
        BrokenStays(next, handler, before, got);
        return;
      }
      ExtractMore(next, handler, before, got);
      inBuf := inBuf + got;
      ProcessCommands();
    }

    ghost predicate HasRead(s: seq<byte>)
      requires Moves(next)
      reads this
    {
      var e := Extract(next, handler, s);
      handled == e.commands && broken == e.broken && (!broken ==> inBuf == e.rest)
    }
  }

  /** However the octets are cut into pieces, the same commands are handled. */
  method ReceiveAll(next: Framer, handler: Handler, pieces: seq<seq<byte>>)
    returns (handled: seq<Command>, rest: seq<byte>, broken: bool)
    requires Stable(next) && next([]).Incomplete?
    ensures var e := Extract(next, handler, Flatten(pieces));
      handled == e.commands && broken == e.broken && (!broken ==> rest == e.rest)
  {
    var conn := new Receiver(next, handler);
    var i := 0;
    while i < |pieces|
      invariant i <= |pieces| && conn.next == next && conn.handler == handler && fresh(conn)
      invariant conn.HasRead(Flatten(pieces[..i]))
    {
      conn.Read(pieces[i], Flatten(pieces[..i]));
      FlattenAppend(pieces[..i], pieces[i]);
      assert pieces[..i + 1] == pieces[..i] + [pieces[i]];
      i := i + 1;
    }
    assert pieces[..i] == pieces;
    return conn.handled, conn.inBuf, conn.broken;
  }

  /** The framing of the protocol. */
  ghost function FramerOf(sha: seq<byte> -> seq<byte>): Framer
    requires IsSha512(sha)
  {
    (s: seq<byte>) => NextCommand(sha, s)
  }

  lemma FramerIsStable(sha: seq<byte> -> seq<byte>)
    requires IsSha512(sha)
    ensures Stable(FramerOf(sha)) && FramerOf(sha)([]).Incomplete?
  {
    var next := FramerOf(sha);
    forall s ensures next(s).Framed? ==> 0 < next(s).size <= |s| {
      assert next(s) == NextCommand(sha, s);
    }
    forall s, tail ensures StableAt(next, s, tail) {
      assert next(s) == NextCommand(sha, s) && next(s + tail) == NextCommand(sha, s + tail);
      if !NextCommand(sha, s).Incomplete? {
        NextCommandStable(sha, s, tail);
      }
    }
  }

  // ------------------------------------------------------------------ sending

  /** As many hashes as a count of one octet allows. */
  const MAX_HASHES: nat := 0xfc

  type Hash = seq<byte>

  ghost predicate AreHashes(hashes: seq<Hash>)
  {
    forall i :: 0 <= i < |hashes| ==> |hashes[i]| == HASH_LENGTH
  }

  /** The lists that a long list is split into. */
  function Groups(hashes: seq<Hash>): seq<seq<Hash>>
  {
    if hashes == [] then []
    else if |hashes| <= MAX_HASHES then [hashes]
    else [hashes[..MAX_HASHES]] + Groups(hashes[MAX_HASHES..])
  }

  /** Every command has 1 to 252 hashes, together they are the list, and there is no
      command for no hashes. */
  lemma {:induction false} GroupsSplit(hashes: seq<Hash>)
    ensures forall g :: g in Groups(hashes) ==> 1 <= |g| <= MAX_HASHES
    ensures Flatten(Groups(hashes)) == hashes
    ensures Groups(hashes) == [] <==> hashes == []
  {
    if hashes == [] {
    } else if |hashes| <= MAX_HASHES {
      assert Flatten([hashes]) == hashes + Flatten<Hash>([]);
    } else {
      GroupsSplit(hashes[MAX_HASHES..]);
    }
  }

  lemma {:induction false} GroupsGrow(full: seq<seq<Hash>>, last: seq<Hash>)
    requires (forall i :: 0 <= i < |full| ==> |full[i]| == MAX_HASHES) && |last| <= MAX_HASHES
    requires full != [] ==> last != []
    ensures Groups(Flatten(full) + last) == full + (if last == [] then [] else [last])
    decreases |full|
  {
    if full == [] {
      assert Flatten(full) + last == last;
    } else {
      var all := Flatten(full) + last;
      GroupsGrow(full[1..], last);
      assert all == full[0] + (Flatten(full[1..]) + last);
      assert all[..MAX_HASHES] == full[0] && all[MAX_HASHES..] == Flatten(full[1..]) + last;
      assert full == [full[0]] + full[1..];
    }
  }

  function Payload(hashes: seq<Hash>): seq<byte>
    requires |hashes| <= MAX_HASHES
  {
    [|hashes|] + Flatten(hashes)
  }

  function FrameOf(sha: seq<byte> -> seq<byte>, name: seq<byte>, hashes: seq<Hash>): seq<byte>
    requires IsSha512(sha) && |name| <= 12 && |hashes| <= MAX_HASHES
  {
    Frame(sha, name, Payload(hashes))
  }

  ghost predicate Fit(groups: seq<seq<Hash>>)
  {
    forall i :: 0 <= i < |groups| ==> |groups[i]| <= MAX_HASHES
  }

  function FrameList(sha: seq<byte> -> seq<byte>, name: seq<byte>, groups: seq<seq<Hash>>): (r: seq<seq<byte>>)
    requires IsSha512(sha) && |name| <= 12 && Fit(groups)
    ensures |r| == |groups|
  {
    seq(|groups|, i requires 0 <= i < |groups| => FrameOf(sha, name, groups[i]))
  }

  function Frames(sha: seq<byte> -> seq<byte>, name: seq<byte>, groups: seq<seq<Hash>>): seq<byte>
    requires IsSha512(sha) && |name| <= 12 && Fit(groups)
  {
    Flatten(FrameList(sha, name, groups))
  }

  lemma FramesAppend(sha: seq<byte> -> seq<byte>, name: seq<byte>, groups: seq<seq<Hash>>, g: seq<Hash>)
    requires IsSha512(sha) && |name| <= 12 && Fit(groups) && |g| <= MAX_HASHES
    ensures Frames(sha, name, groups + [g]) == Frames(sha, name, groups) + FrameOf(sha, name, g)
  {
    FlattenAppend(FrameList(sha, name, groups), FrameOf(sha, name, g));
    assert FrameList(sha, name, groups + [g]) == FrameList(sha, name, groups) + [FrameOf(sha, name, g)];
  }

  lemma {:induction false} FlattenSize(hashes: seq<Hash>)
    requires AreHashes(hashes)
    ensures |Flatten(hashes)| == |hashes| * HASH_LENGTH
  {
    if hashes != [] {
      FlattenSize(hashes[1..]);
    }
  }

  function Head(name: seq<byte>): (r: seq<byte>)
    requires |name| <= 12
    ensures |r| == 16
  {
    MAGIC + name + Zeros(12 - |name|)
  }

  /** The octets of a command whose length, checksum and count are to be filled in. */
  function Built(base: seq<byte>, head: seq<byte>, length: seq<byte>, check: seq<byte>, count: seq<byte>, data: seq<byte>): seq<byte>
  {
    base + head + length + check + count + data
  }

  /** A command being built up from `start` on. */
  ghost predicate Open(buf: seq<byte>, start: nat, name: seq<byte>, hashes: seq<Hash>)
    requires |name| <= 12
  {
    && start + HEADER_SIZE + 1 <= |buf|
    && exists length, check, count ::
      |length| == 4 && |check| == 4 && |count| == 1
      && buf == Built(buf[..start], Head(name), length, check, count, Flatten(hashes))
  }

  function Patched(buf: seq<byte>, at: nat, part: seq<byte>): (r: seq<byte>)
    requires at + |part| <= |buf|
    ensures |r| == |buf|
  {
    buf[..at] + part + buf[at + |part|..]
  }

  /** ntb_proto_end_command */
  function EndCommand(sha: seq<byte> -> seq<byte>, buf: seq<byte>, start: nat): (r: seq<byte>)
    requires IsSha512(sha) && start + HEADER_SIZE <= |buf|
  {
    var payload := buf[start + HEADER_SIZE..];
    var sized := Patched(buf, start + 16, Be(|payload| % TWO_32, 4));
    Patched(sized, start + 20, sha(payload)[..4])
  }

  lemma PatchedMiddle(a: seq<byte>, b: seq<byte>, part: seq<byte>, c: seq<byte>)
    requires |b| == |part|
    ensures Patched(a + b + c, |a|, part) == a + part + c
  {
  }

  lemma LengthPatched(base: seq<byte>, head: seq<byte>, length: seq<byte>, check: seq<byte>, count: seq<byte>, data: seq<byte>,
                      part: seq<byte>)
    requires |head| == 16 && |length| == |part|
    ensures Patched(Built(base, head, length, check, count, data), |base| + 16, part)
      == Built(base, head, part, check, count, data)
  {
    PatchedMiddle(base + head, length, part, check + count + data);
    assert Built(base, head, length, check, count, data) == (base + head) + length + (check + count + data);
    assert Built(base, head, part, check, count, data) == (base + head) + part + (check + count + data);
  }

  lemma CheckPatched(base: seq<byte>, head: seq<byte>, length: seq<byte>, check: seq<byte>, count: seq<byte>, data: seq<byte>,
                     part: seq<byte>)
    requires |head| == 16 && |length| == 4 && |check| == |part|
    ensures Patched(Built(base, head, length, check, count, data), |base| + 20, part)
      == Built(base, head, length, part, count, data)
  {
    PatchedMiddle(base + head + length, check, part, count + data);
    assert Built(base, head, length, check, count, data) == (base + head + length) + check + (count + data);
    assert Built(base, head, length, part, count, data) == (base + head + length) + part + (count + data);
  }

  lemma CountPatched(base: seq<byte>, head: seq<byte>, length: seq<byte>, check: seq<byte>, count: seq<byte>, data: seq<byte>,
                     part: seq<byte>)
    requires |head| == 16 && |length| == 4 && |check| == 4 && |count| == |part|
    ensures Patched(Built(base, head, length, check, count, data), |base| + HEADER_SIZE, part)
      == Built(base, head, length, check, part, data)
  {
    PatchedMiddle(base + head + length + check, count, part, data);
  }

  lemma BuiltPayload(base: seq<byte>, head: seq<byte>, length: seq<byte>, check: seq<byte>, count: seq<byte>, data: seq<byte>)
    requires |head| == 16 && |length| == 4 && |check| == 4
    ensures Built(base, head, length, check, count, data)[|base| + HEADER_SIZE..] == count + data
  {
  }

  lemma FrameParts(sha: seq<byte> -> seq<byte>, name: seq<byte>, payload: seq<byte>)
    requires IsSha512(sha) && |name| <= 12
    ensures Frame(sha, name, payload) == Head(name) + Be(|payload|, 4) + sha(payload)[..4] + payload
  {
  }

  lemma BuiltFrame(sha: seq<byte> -> seq<byte>, base: seq<byte>, name: seq<byte>, count: seq<byte>, data: seq<byte>)
    requires IsSha512(sha) && |name| <= 12
    ensures Built(base, Head(name), Be(|count + data|, 4), sha(count + data)[..4], count, data)
      == base + Frame(sha, name, count + data)
  {
    FrameParts(sha, name, count + data);
    Regroup(base, Head(name), Be(|count + data|, 4), sha(count + data)[..4], count, data);
  }

  lemma Regroup(a: seq<byte>, b: seq<byte>, c: seq<byte>, d: seq<byte>, e: seq<byte>, f: seq<byte>)
    ensures a + b + c + d + e + f == a + (b + c + d + (e + f))
  {
  }

  /** Filling in the header makes a frame of what follows it. */
  lemma EndedIsFrame(sha: seq<byte> -> seq<byte>, base: seq<byte>, name: seq<byte>, length: seq<byte>, check: seq<byte>,
                     count: seq<byte>, data: seq<byte>)
    requires IsSha512(sha) && |name| <= 12 && |length| == 4 && |check| == 4 && |count + data| < TWO_32
    ensures EndCommand(sha, Built(base, Head(name), length, check, count, data), |base|)
      == base + Frame(sha, name, count + data)
  {
    var head, payload := Head(name), count + data;
    var size, sum := Be(|payload|, 4), sha(payload)[..4];
    BuiltPayload(base, head, length, check, count, data);
    LengthPatched(base, head, length, check, count, data, size);
    CheckPatched(base, head, size, check, count, data, sum);
    BuiltFrame(sha, base, name, count, data);
  }

  lemma CountIs(buf: seq<byte>, start: nat, name: seq<byte>, hashes: seq<Hash>)
    requires |name| <= 12 && AreHashes(hashes) && Open(buf, start, name, hashes)
    ensures (|buf| - start - 1 - HEADER_SIZE) / HASH_LENGTH == |hashes|
  {
    FlattenSize(hashes);
    DivModUnique(|buf| - start - 1 - HEADER_SIZE, HASH_LENGTH, |hashes|, 0);
  }

  lemma BuiltAppend(base: seq<byte>, head: seq<byte>, length: seq<byte>, check: seq<byte>, count: seq<byte>, data: seq<byte>,
                    more: seq<byte>)
    ensures Built(base, head, length, check, count, data) + more == Built(base, head, length, check, count, data + more)
  {
    var front := base + head + length + check + count;
    assert front + data + more == front + (data + more);
  }

  lemma OpenAppend(buf: seq<byte>, start: nat, name: seq<byte>, hashes: seq<Hash>, hash: Hash)
    requires |name| <= 12 && Open(buf, start, name, hashes)
    ensures start <= |buf| && (buf + hash)[..start] == buf[..start]
    ensures Open(buf + hash, start, name, hashes + [hash])
  {
    var length, check, count :| |length| == 4 && |check| == 4 && |count| == 1
      && buf == Built(buf[..start], Head(name), length, check, count, Flatten(hashes));
    FlattenAppend(hashes, hash);
    BuiltAppend(buf[..start], Head(name), length, check, count, Flatten(hashes), hash);
    assert (buf + hash)[..start] == buf[..start];
  }

  lemma OpenEnded(sha: seq<byte> -> seq<byte>, buf: seq<byte>, start: nat, name: seq<byte>, hashes: seq<Hash>)
    requires IsSha512(sha) && |name| <= 12 && Open(buf, start, name, hashes)
    requires AreHashes(hashes) && |hashes| <= MAX_HASHES
    ensures EndCommand(sha, Patched(buf, start + HEADER_SIZE, [|hashes|]), start)
      == buf[..start] + FrameOf(sha, name, hashes)
  {
    var base := buf[..start];
    var length, check, count :| |length| == 4 && |check| == 4 && |count| == 1
      && buf == Built(base, Head(name), length, check, count, Flatten(hashes));
    FlattenSize(hashes);
    CountPatched(base, Head(name), length, check, count, Flatten(hashes), [|hashes|]);
    EndedIsFrame(sha, base, name, length, check, [|hashes|], Flatten(hashes));
  }

  /** The buffer after end_hash_command. */
  function Ended(sha: seq<byte> -> seq<byte>, buf: seq<byte>, start: nat, count: byte): seq<byte>
    requires IsSha512(sha) && start + HEADER_SIZE + 1 <= |buf|
  {
    if count == 0 then buf[..start]
    else EndCommand(sha, Patched(buf, start + HEADER_SIZE, [count]), start)
  }

  /** A command without hashes is abandoned; any other becomes a frame. */
  lemma EndedIs(sha: seq<byte> -> seq<byte>, buf: seq<byte>, start: nat, name: seq<byte>, hashes: seq<Hash>)
    requires IsSha512(sha) && |name| <= 12 && Open(buf, start, name, hashes)
    requires AreHashes(hashes) && |hashes| <= MAX_HASHES
    ensures (|buf| - start - 1 - HEADER_SIZE) / HASH_LENGTH == |hashes|
    ensures Ended(sha, buf, start, |hashes|) == buf[..start] + (if hashes == [] then [] else FrameOf(sha, name, hashes))
  {
    CountIs(buf, start, name, hashes);
    OpenEnded(sha, buf, start, name, hashes);
    assert buf[..start] + [] == buf[..start];
  }

  /** The hashes added since the beginning: full commands and one still open. */
  ghost predicate Writing(sha: seq<byte> -> seq<byte>, buf: seq<byte>, start: nat, base: seq<byte>, name: seq<byte>,
                          full: seq<seq<Hash>>, current: seq<Hash>)
    requires IsSha512(sha) && |name| <= 12
  {
    && AllFull(full)
    && |current| <= MAX_HASHES && AreHashes(current) && (full != [] ==> current != [])
    && Open(buf, start, name, current)
    && buf[..start] == base + Frames(sha, name, full)
  }

  /** The same, for the hashes added so far. */
  ghost predicate Added(sha: seq<byte> -> seq<byte>, buf: seq<byte>, start: nat, base: seq<byte>, name: seq<byte>,
                        hashes: seq<Hash>)
    requires IsSha512(sha) && |name| <= 12
  {
    exists full, current ::
      Writing(sha, buf, start, base, name, full, current) && hashes == Flatten(full) + current
  }

  ghost predicate AllFull(full: seq<seq<Hash>>)
    ensures AllFull(full) ==> Fit(full)
  {
    forall i :: 0 <= i < |full| ==> |full[i]| == MAX_HASHES
  }

  lemma FullAppend(sha: seq<byte> -> seq<byte>, base: seq<byte>, name: seq<byte>, full: seq<seq<Hash>>, last: seq<Hash>)
    requires IsSha512(sha) && |name| <= 12 && Fit(full) && |last| <= MAX_HASHES
    ensures base + Frames(sha, name, full + [last]) == base + Frames(sha, name, full) + FrameOf(sha, name, last)
    ensures Flatten(full + [last]) == Flatten(full) + last
  {
    FramesAppend(sha, name, full, last);
    FlattenAppend(full, last);
    assert base + (Frames(sha, name, full) + FrameOf(sha, name, last))
      == base + Frames(sha, name, full) + FrameOf(sha, name, last);
  }

  /** Ending the command that is still open leaves the commands of the whole list. */
  lemma AllEnded(sha: seq<byte> -> seq<byte>, base: seq<byte>, name: seq<byte>, full: seq<seq<Hash>>, last: seq<Hash>)
    requires IsSha512(sha) && |name| <= 12 && AllFull(full) && |last| <= MAX_HASHES && (full != [] ==> last != [])
    ensures Fit(Groups(Flatten(full) + last))
    ensures base + Frames(sha, name, full) + (if last == [] then [] else FrameOf(sha, name, last))
      == base + Frames(sha, name, Groups(Flatten(full) + last))
  {
    GroupsGrow(full, last);
    FullAppend(sha, base, name, full, last);
    if last == [] {
      assert full + [] == full;
      assert base + Frames(sha, name, full) + [] == base + Frames(sha, name, full);
    }
  }

  /** A hash in the command that is still open. */
  lemma AddedAppend(sha: seq<byte> -> seq<byte>, buf: seq<byte>, start: nat, base: seq<byte>, name: seq<byte>,
                    full: seq<seq<Hash>>, current: seq<Hash>, hash: Hash)
    requires IsSha512(sha) && |name| <= 12 && |hash| == HASH_LENGTH
    requires AllFull(full) && |current| < MAX_HASHES && AreHashes(current)
    requires Open(buf, start, name, current) && buf[..start] == base + Frames(sha, name, full)
    ensures Added(sha, buf + hash, start, base, name, Flatten(full) + current + [hash])
  {
    OpenAppend(buf, start, name, current, hash);
    assert Flatten(full) + current + [hash] == Flatten(full) + (current + [hash]);
    assert Writing(sha, buf + hash, start, base, name, full, current + [hash]);
  }

  class Sender {
    const sha: seq<byte> -> seq<byte>
    var outBuf: seq<byte>
    var commandStart: nat

    constructor (sha: seq<byte> -> seq<byte>)
      ensures this.sha == sha && outBuf == []
    {
      this.sha, outBuf, commandStart := sha, [], 0;
    }

    /** get_n_hashes_for_command */
    function HashCount(): int
      reads this
    {
      (|outBuf| - commandStart - 1 - HEADER_SIZE) / HASH_LENGTH
    }

    /** begin_hash_command; the octets filled in later hold whatever the memory held. */
    method BeginHashCommand(name: seq<byte>)
      requires |name| <= 12
      modifies this
      ensures commandStart == |old(outBuf)| <= |outBuf| && outBuf[..commandStart] == old(outBuf)
      ensures Open(outBuf, commandStart, name, [])
    {
      ghost var base := outBuf;
      commandStart := |outBuf|;
      assert |Zeros(4)| == 4 && |Zeros(1)| == 1;
      var length: seq<byte> :| |length| == 4;
      var check: seq<byte> :| |check| == 4;
      var count: seq<byte> :| |count| == 1;
      outBuf := outBuf + Head(name) + length + check + count;
      assert outBuf[..commandStart] == base;
      assert outBuf + [] == outBuf;
      assert outBuf == Built(base, Head(name), length, check, count, Flatten<byte>([]));
    }

    /** end_hash_command: a command without hashes is abandoned. */
    method EndHashCommand(ghost name: seq<byte>, ghost hashes: seq<Hash>)
      requires IsSha512(sha) && |name| <= 12 && |hashes| <= MAX_HASHES && AreHashes(hashes)
      requires Open(outBuf, commandStart, name, hashes)
      modifies this`outBuf
      ensures outBuf == old(outBuf)[..commandStart] +
        (if hashes == [] then [] else FrameOf(sha, name, hashes))
    {
      EndedIs(sha, outBuf, commandStart, name, hashes);
      outBuf := Ended(sha, outBuf, commandStart, HashCount());
    }

    /** A full command is ended and another one begun. */
    method NextHashCommand(name: seq<byte>, ghost base: seq<byte>, ghost full: seq<seq<Hash>>, ghost current: seq<Hash>)
      requires IsSha512(sha) && |name| <= 12 && Writing(sha, outBuf, commandStart, base, name, full, current)
      requires |current| == MAX_HASHES
      modifies this
      ensures Open(outBuf, commandStart, name, []) && outBuf[..commandStart] == base + Frames(sha, name, full + [current])
    {
      FullAppend(sha, base, name, full, current);
      EndHashCommand(name, current);
      BeginHashCommand(name);
    }

    /** add_hash_for_command */
    method AddHash(name: seq<byte>, hash: Hash, ghost base: seq<byte>, ghost hashes: seq<Hash>)
      requires IsSha512(sha) && |name| <= 12 && |hash| == HASH_LENGTH
      requires Added(sha, outBuf, commandStart, base, name, hashes)
      modifies this
      ensures Added(sha, outBuf, commandStart, base, name, hashes + [hash])
    {
      ghost var full, current :|
        Writing(sha, outBuf, commandStart, base, name, full, current) && hashes == Flatten(full) + current;
      CountIs(outBuf, commandStart, name, current);
      if HashCount() >= MAX_HASHES {
        NextHashCommand(name, base, full, current);
        FlattenAppend(full, current);
        full, current := full + [current], [];
        assert hashes == Flatten(full) + current;
      }
      AddedAppend(sha, outBuf, commandStart, base, name, full, current, hash);
      outBuf := outBuf + hash;
    }

    /** Any number of hashes between begin and end. */
    method SendHashes(name: seq<byte>, hashes: seq<Hash>)
      requires IsSha512(sha) && |name| <= 12 && AreHashes(hashes)
      modifies this
      ensures Fit(Groups(hashes))
      ensures outBuf == old(outBuf) + Frames(sha, name, Groups(hashes))
    {
      ghost var base := outBuf;
      BeginFirst(name);
      AddAll(name, hashes, base);
      EndLast(name, base, hashes);
    }

    method AddAll(name: seq<byte>, hashes: seq<Hash>, ghost base: seq<byte>)
      requires IsSha512(sha) && |name| <= 12 && AreHashes(hashes)
      requires Added(sha, outBuf, commandStart, base, name, [])
      modifies this
      ensures Added(sha, outBuf, commandStart, base, name, hashes)
    {
      var i := 0;
      assert hashes[..0] == [];
      while i < |hashes|
        invariant i <= |hashes| && Added(sha, outBuf, commandStart, base, name, hashes[..i])
      {
        AddHash(name, hashes[i], base, hashes[..i]);
        assert hashes[..i + 1] == hashes[..i] + [hashes[i]];
        i := i + 1;
      }
      assert hashes[..i] == hashes;
    }

    method BeginFirst(name: seq<byte>)
      requires IsSha512(sha) && |name| <= 12
      modifies this
      ensures Added(sha, outBuf, commandStart, old(outBuf), name, [])
    {
      ghost var base := outBuf;
      BeginHashCommand(name);
      assert base + Frames(sha, name, []) == base;
      assert Writing(sha, outBuf, commandStart, base, name, [], []);
    }

    method EndLast(ghost name: seq<byte>, ghost base: seq<byte>, ghost hashes: seq<Hash>)
      requires IsSha512(sha) && |name| <= 12 && Added(sha, outBuf, commandStart, base, name, hashes)
      modifies this
      ensures Fit(Groups(hashes)) && outBuf == base + Frames(sha, name, Groups(hashes))
    {
      ghost var full, current :|
        Writing(sha, outBuf, commandStart, base, name, full, current) && hashes == Flatten(full) + current;
      AllEnded(sha, base, name, full, current);
      EndHashCommand(name, current);
    }
  }

  // ------------------------------------------------------------- both together

  /** inv_command_handler: the number of hashes and the octets they are read from. The
      product is one of 64 bits. */
  function InvEvent(payload: seq<byte>): Option<(nat, seq<byte>)>
  {
    match GetVarInt(payload)
    case Fail => None
    case Ok(n, rest) => if |rest| < n * HASH_LENGTH % TWO_64 then None else Some((n, rest))
  }

  /** The hashes an event stands for. */
  function HashesIn(n: nat, data: seq<byte>): seq<Hash>
    decreases n
  {
    if n == 0 || |data| < HASH_LENGTH then []
    else [data[..HASH_LENGTH]] + HashesIn(n - 1, data[HASH_LENGTH..])
  }

  function HashesOf(c: Command): seq<Hash>
  {
    match InvEvent(c.payload)
    case None => []
    case Some(e) => HashesIn(e.0, e.1)
  }

  lemma {:induction false} HashesRead(hashes: seq<Hash>)
    requires AreHashes(hashes)
    ensures HashesIn(|hashes|, Flatten(hashes)) == hashes
  {
    if hashes != [] {
      HashesRead(hashes[1..]);
      var data := Flatten(hashes);
      assert data[..HASH_LENGTH] == hashes[0] && data[HASH_LENGTH..] == Flatten(hashes[1..]);
      assert [hashes[0]] + hashes[1..] == hashes;
    }
  }

  /** A written payload is read as the hashes it was written for. */
  lemma PayloadRead(name: seq<byte>, hashes: seq<Hash>)
    requires AreHashes(hashes) && |hashes| <= MAX_HASHES
    ensures InvEvent(Payload(hashes)).Some? && HashesOf(Command(name, Payload(hashes))) == hashes
  {
    FlattenSize(hashes);
    HashesRead(hashes);
    assert Payload(hashes)[1..] == Flatten(hashes);
  }

  function CommandsOf(name: seq<byte>, groups: seq<seq<Hash>>): (r: seq<Command>)
    requires Fit(groups)
    ensures |r| == |groups|
  {
    seq(|groups|, i requires 0 <= i < |groups| => Command(name, Payload(groups[i])))
  }

  /** A frame at the start of the buffer is one command. */
  ghost predicate FrameRead(next: Framer, text: seq<byte>, c: Command, tail: seq<byte>)
  {
    next(text + tail) == Framed(c, |text|) && |text| > 0
  }

  lemma HashFrameRead(sha: seq<byte> -> seq<byte>, name: seq<byte>, hashes: seq<Hash>, tail: seq<byte>)
    requires IsSha512(sha) && |name| < 12 && 0 !in name && |hashes| <= MAX_HASHES && AreHashes(hashes)
    ensures FrameRead(FramerOf(sha), FrameOf(sha, name, hashes), Command(name, Payload(hashes)), tail)
  {
    FlattenSize(hashes);
    FrameRoundTrip(sha, name, Payload(hashes), tail);
    assert FramerOf(sha)(FrameOf(sha, name, hashes) + tail) == NextCommand(sha, FrameOf(sha, name, hashes) + tail);
  }

  lemma ExtractOne(next: Framer, handler: Handler, text: seq<byte>, c: Command, tail: seq<byte>)
    requires Moves(next) && FrameRead(next, text, c, tail) && handler(c)
    ensures var more := Extract(next, handler, tail);
      Extract(next, handler, text + tail) == more.(commands := [c] + more.commands)
  {
    assert (text + tail)[|text|..] == tail;
  }

  ghost predicate Reads(next: Framer, handler: Handler, text: seq<byte>, c: Command)
  {
    handler(c) && forall tail :: FrameRead(next, text, c, tail)
  }

  lemma {:induction false} ExtractAll(next: Framer, handler: Handler, texts: seq<seq<byte>>, commands: seq<Command>)
    requires Moves(next) && next([]).Incomplete? && |texts| == |commands|
    requires forall i :: 0 <= i < |texts| ==> Reads(next, handler, texts[i], commands[i])
    ensures Extract(next, handler, Flatten(texts)) == Extraction(commands, [], false)
    decreases |texts|
  {
    if texts != [] {
      ExtractAll(next, handler, texts[1..], commands[1..]);
      assert Reads(next, handler, texts[0], commands[0]);
      assert FrameRead(next, texts[0], commands[0], Flatten(texts[1..]));
      ExtractOne(next, handler, texts[0], commands[0], Flatten(texts[1..]));
      assert [commands[0]] + commands[1..] == commands;
    }
  }

  lemma HashFramesRead(sha: seq<byte> -> seq<byte>, name: seq<byte>, handler: Handler, hashes: seq<Hash>)
    requires IsSha512(sha) && |name| < 12 && 0 !in name && |hashes| <= MAX_HASHES && AreHashes(hashes)
    requires handler(Command(name, Payload(hashes)))
    ensures Reads(FramerOf(sha), handler, FrameOf(sha, name, hashes), Command(name, Payload(hashes)))
  {
    forall tail ensures FrameRead(FramerOf(sha), FrameOf(sha, name, hashes), Command(name, Payload(hashes)), tail) {
      HashFrameRead(sha, name, hashes, tail);
    }
  }

  lemma ExtractFrames(sha: seq<byte> -> seq<byte>, name: seq<byte>, handler: Handler, groups: seq<seq<Hash>>)
    requires IsSha512(sha) && |name| < 12 && 0 !in name && Fit(groups)
    requires Stable(FramerOf(sha)) && FramerOf(sha)([]).Incomplete?
    requires forall i :: 0 <= i < |groups| ==> AreHashes(groups[i])
    requires forall c :: c in CommandsOf(name, groups) ==> handler(c)
    ensures Extract(FramerOf(sha), handler, Frames(sha, name, groups))
      == Extraction(CommandsOf(name, groups), [], false)
  {
    var texts, commands := FrameList(sha, name, groups), CommandsOf(name, groups);
    forall i | 0 <= i < |texts| ensures Reads(FramerOf(sha), handler, texts[i], commands[i]) {
      assert commands[i] in commands;
      HashFramesRead(sha, name, handler, groups[i]);
    }
    ExtractAll(FramerOf(sha), handler, texts, commands);
  }

  function AllHashes(commands: seq<Command>): seq<Hash>
  {
    if commands == [] then [] else HashesOf(commands[0]) + AllHashes(commands[1..])
  }

  lemma {:induction false} CommandsHold(name: seq<byte>, groups: seq<seq<Hash>>)
    requires Fit(groups) && forall i :: 0 <= i < |groups| ==> AreHashes(groups[i])
    ensures AllHashes(CommandsOf(name, groups)) == Flatten(groups)
    decreases |groups|
  {
    if groups != [] {
      CommandsHold(name, groups[1..]);
      PayloadRead(name, groups[0]);
      assert CommandsOf(name, groups)[1..] == CommandsOf(name, groups[1..]);
    }
  }

  lemma {:induction false} GroupsAreHashes(hashes: seq<Hash>)
    requires AreHashes(hashes)
    ensures forall i :: 0 <= i < |Groups(hashes)| ==> AreHashes(Groups(hashes)[i])
  {
    if |hashes| > MAX_HASHES {
      GroupsAreHashes(hashes[MAX_HASHES..]);
    }
  }

  lemma CommandSizes(name: seq<byte>, groups: seq<seq<Hash>>)
    requires forall g :: g in groups ==> 1 <= |g| <= MAX_HASHES && AreHashes(g)
    ensures Fit(groups)
    ensures forall c :: c in CommandsOf(name, groups) ==> c.name == name && 1 <= |HashesOf(c)| <= MAX_HASHES
  {
    forall c | c in CommandsOf(name, groups) ensures c.name == name && 1 <= |HashesOf(c)| <= MAX_HASHES {
      var i :| 0 <= i < |groups| && c == Command(name, Payload(groups[i]));
      PayloadRead(name, groups[i]);
    }
  }

  /** What SendHashes writes, delivered in any pieces, is handled as commands of 1 to 252
      hashes that together are exactly the hashes sent, with nothing left over. */
  lemma HashesArrive(sha: seq<byte> -> seq<byte>, name: seq<byte>, handler: Handler, hashes: seq<Hash>, pieces: seq<seq<byte>>)
    requires IsSha512(sha) && |name| < 12 && 0 !in name && AreHashes(hashes) && Fit(Groups(hashes))
    requires Flatten(pieces) == Frames(sha, name, Groups(hashes))
    requires forall c :: c in CommandsOf(name, Groups(hashes)) ==> handler(c)
    ensures Stable(FramerOf(sha))
    ensures var e := Extract(FramerOf(sha), handler, Flatten(pieces));
      && !e.broken && e.rest == []
      && AllHashes(e.commands) == hashes
      && (forall c :: c in e.commands ==> c.name == name && 1 <= |HashesOf(c)| <= MAX_HASHES)
  {
    var groups := Groups(hashes);
    FramerIsStable(sha);
    GroupsSplit(hashes);
    GroupsAreHashes(hashes);
    ExtractFrames(sha, name, handler, groups);
    CommandsHold(name, groups);
    CommandSizes(name, groups);
  }
}
