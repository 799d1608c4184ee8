/** The SMTP DATA serialiser: headers, MIME multipart boundaries (section 5.1.1 of RFC 2046)
    and base64 bodies cut into 76-byte lines (section 6.8 of RFC 2045), written to the
    message writer of an SMTP session.

    The writer is a collaborator: it appends what it is given and accepts a fixed number of
    further `Write` calls, after which every call fails and changes nothing. The random
    source behind the boundary is the byte sequence `crypto/rand` would deliver. */
module SmtpIOData {
  import opened Common
  import Base64

  const ChunkSize: nat := 76
  const BoundaryLength: nat := 28
  const EntropyLength: nat := 30

  const EmptyWriter := "empty writer"
  const EmptyBuffer := "encoded buffer is empty"
  /** The error the writer returns once it accepts no more writes. */
  const WriteFailed := "write failed"

  /** The transfer encoding every attachment part declares. */
  const TransferEncoding := "base64"

  // ---------------------------------------------------------------------------
  // The writer

  /** A writer's observable state: what it has received, and how many more `Write` calls
      it accepts. */
  datatype Sink = Sink(out: seq<byte>, left: nat)

  /** The effect of issuing the writes `ws` in order and stopping at the first one that
      fails: the final state, and whether every write succeeded. */
  function Put(s: Sink, ws: seq<seq<byte>>): (Sink, bool)
    decreases |ws|
  {
    if ws == [] then (s, true)
    else if s.left == 0 then (s, false)
    else Put(Sink(s.out + ws[0], s.left - 1), ws[1..])
  }

  function Failure(ok: bool): Option<string>
  {
    if ok then None else Some(WriteFailed)
  }

  /** Issuing writes in order delivers the first `left` of them, and succeeds exactly when
      there are no more writes than the writer accepts. */
  lemma {:induction false} PutClosed(s: Sink, ws: seq<seq<byte>>)
    ensures var k := Min(s.left, |ws|);
            && Put(s, ws).0 == Sink(s.out + Concat(ws[..k]), s.left - k)
            && (Put(s, ws).1 <==> |ws| <= s.left)
    decreases |ws|
  {
    if ws != [] && s.left > 0 {
      var t := Sink(s.out + ws[0], s.left - 1);
      PutClosed(t, ws[1..]);
      var k := Min(s.left, |ws|);
      ConcatFront(ws[..k]);
      assert ws[..k][0] == ws[0] && ws[..k][1..] == ws[1..][..k - 1];
    }
  }

  lemma {:induction false} ConcatFront<T>(parts: seq<seq<T>>)
    requires parts != []
    ensures Concat(parts) == parts[0] + Concat(parts[1..])
    decreases |parts|
  {
    if |parts| > 1 {
      var init := parts[..|parts| - 1];
      ConcatFront(init);
      assert init[0] == parts[0] && init[1..] == parts[1..][..|parts| - 2];
    } else {
      assert parts[..0] == [] && parts[1..] == [];
    }
  }

  /** Issuing `a` then `b` is issuing `a + b`; once a write fails nothing more happens. */
  lemma {:induction false} PutAppend(s: Sink, a: seq<seq<byte>>, b: seq<seq<byte>>)
    ensures Put(s, a + b) == (var r := Put(s, a); if r.1 then Put(r.0, b) else r)
    decreases |a|
  {
    if a == [] {
      assert a + b == b;
    } else if s.left > 0 {
      assert (a + b)[0] == a[0] && (a + b)[1..] == a[1..] + b;
      PutAppend(Sink(s.out + a[0], s.left - 1), a[1..], b);
    }
  }

  /** One write of `data`: taken whole when the writer still accepts writes, refused
      otherwise. */
  predicate Wrote(before: Sink, after: Sink, data: seq<byte>, ok: bool)
  {
    if before.left == 0 then after == before && !ok
    else after == Sink(before.out + data, before.left - 1) && ok
  }

  /** A single write is the one-element case of Put. */
  lemma PutOne(before: Sink, after: Sink, data: seq<byte>, ok: bool)
    requires Wrote(before, after, data, ok)
    ensures Put(before, [data]) == (after, ok)
  {
    var one: seq<seq<byte>> := [data];
    assert one[1..] == [];
  }

  /** The writes still to come after one write whose outcome is known. */
  lemma PutNext(s0: Sink, ws: seq<seq<byte>>, cur: Sink, rest: seq<seq<byte>>, after: Sink, ok: bool)
    requires rest != [] && Put(s0, ws) == Put(cur, rest) && Wrote(cur, after, rest[0], ok)
    ensures ok ==> Put(s0, ws) == Put(after, rest[1..])
    ensures !ok ==> Put(s0, ws) == (after, false)
  {
  }

  class Writer {
    var out: seq<byte>
    var left: nat

    constructor (accepts: nat)
      ensures out == [] && left == accepts
    {
      out := [];
      left := accepts;
    }

    function State(): Sink
      reads this
    {
      Sink(out, left)
    }

    /** io.Writer.Write: all of `data`, or an error and nothing. */
    method Write(data: seq<byte>) returns (err: Option<string>)
      modifies this
      ensures Wrote(old(State()), State(), data, err.None?)
      ensures err == Failure(err.None?)
    {
      if left == 0 {
        err := Some(WriteFailed);
      } else {
        out := out + data;
        left := left - 1;
        err := None;
      }
    }
  }

  // ---------------------------------------------------------------------------
  // Lines of 76 bytes

  /** The consecutive pieces of at most 76 bytes the body loop of Bytes cuts `v` into. */
  function Chunks(v: seq<byte>): seq<seq<byte>>
    decreases |v|
  {
    if v == [] then []
    else if |v| <= ChunkSize then [v]
    else [v[..ChunkSize]] + Chunks(v[ChunkSize..])
  }

  /** Every piece but the last holds exactly 76 bytes, the last between 1 and 76; there are
      ceil(len/76) pieces, and together they are the value. */
  lemma {:induction false} ChunksShape(v: seq<byte>)
    ensures var cs := Chunks(v);
            && |cs| == (|v| + ChunkSize - 1) / ChunkSize
            && (forall k | 0 <= k < |cs| - 1 :: |cs[k]| == ChunkSize)
            && (cs != [] ==> 1 <= |cs[|cs| - 1]| <= ChunkSize)
            && Concat(cs) == v
    decreases |v|
  {
    var cs := Chunks(v);
    if |v| > ChunkSize {
      var rest := Chunks(v[ChunkSize..]);
      ChunksShape(v[ChunkSize..]);
      assert cs == [v[..ChunkSize]] + rest;
      assert cs[0] == v[..ChunkSize] && cs[1..] == rest;
      ConcatFront(cs);
      assert v == v[..ChunkSize] + v[ChunkSize..];
      assert forall k | 1 <= k < |cs| :: cs[k] == rest[k - 1];
    } else if v != [] {
      assert cs == [v];
      assert Concat(cs) == Concat(cs[..0]) + v;
    }
  }

  /** The writes of the chunking loop: each piece, then a line break. */
  function ChunkWrites(v: seq<byte>): (ws: seq<seq<byte>>)
    decreases |v|
  {
    if v == [] then []
    else if |v| <= ChunkSize then [v, CRLF]
    else [v[..ChunkSize], CRLF] + ChunkWrites(v[ChunkSize..])
  }

  /** The chunking loop writes each piece followed by exactly one CRLF, so it writes
      ceil(len/76) CRLFs and none for an empty value. */
  lemma {:induction false} ChunkWritesPieces(v: seq<byte>)
    ensures var cs, ws := Chunks(v), ChunkWrites(v);
            && |ws| == 2 * |cs|
            && (forall k | 0 <= k < |cs| :: ws[2 * k] == cs[k] && ws[2 * k + 1] == CRLF)
    decreases |v|
  {
    if |v| > ChunkSize {
      ChunkWritesPieces(v[ChunkSize..]);
      var cs, ws := Chunks(v), ChunkWrites(v);
      var cs', ws' := Chunks(v[ChunkSize..]), ChunkWrites(v[ChunkSize..]);
      assert cs == [v[..ChunkSize]] + cs';
      assert ws == [v[..ChunkSize], CRLF] + ws';
      forall k | 1 <= k < |cs|
        ensures ws[2 * k] == cs[k] && ws[2 * k + 1] == CRLF
      {
        var j := k - 1;
        assert ws[2 * k] == ws'[2 * j] && ws[2 * k + 1] == ws'[2 * j + 1];
        assert cs[k] == cs'[j];
      }
    }
  }

  /** The chunk writes still to come when `d` bytes (a multiple of 76) have been written
      and at least one full piece remains. */
  lemma ChunkWritesFull(v: seq<byte>, d: nat, next: nat)
    requires next == d + ChunkSize <= |v|
    ensures ChunkWrites(v[d..]) == [v[d..next], CRLF] + ChunkWrites(v[next..])
  {
    var u := v[d..];
    assert u[..ChunkSize] == v[d..next];
    assert u[ChunkSize..] == v[next..];
    if |u| == ChunkSize {
      assert u == v[d..next];
      assert v[next..] == [];
    }
  }

  /** The byte at position n completes a line begun at `done`. */
  lemma FullLine(done: nat, n: nat, next: nat)
    requires done % ChunkSize == 0 && done <= n < done + ChunkSize && next == n + 1
    requires next % ChunkSize == 0
    ensures next == done + ChunkSize
  {
    var q := done / ChunkSize;
    assert done == q * ChunkSize;
    assert q * ChunkSize < next <= (q + 1) * ChunkSize;
  }

  /** The chunk writes still to come when fewer than 77 bytes are left. */
  lemma ChunkWritesTail(v: seq<byte>, d: nat)
    requires d <= |v| && |v| - d <= ChunkSize
    ensures ChunkWrites(v[d..]) == if d == |v| then [] else [v[d..], CRLF]
  {
  }

  /** What Bytes writes, as written: the whole value, then the value again in lines. */
  function BytesWrites(v: seq<byte>): seq<seq<byte>>
  {
    [v] + ChunkWrites(v)
  }

  /** The write sequence Bytes issues holds every byte of the value twice: a value of one
      line (the one-byte value "A", say) reaches the writer as the value, the value again
      and a line break, where one copy and the line break were intended. */
  lemma {:induction false} BytesWritesTwice(v: seq<byte>)
    requires 0 < |v| <= ChunkSize
    ensures Concat(ChunkWrites(v)) == v + CRLF
    ensures Concat(BytesWrites(v)) == v + v + CRLF
  {
    var ws: seq<seq<byte>> := ChunkWrites(v);
    assert ws == [v, CRLF];
    ConcatFront(ws);
    var tl: seq<seq<byte>> := ws[1..];
    assert tl == [CRLF];
    ConcatFront(tl);
    assert tl[1..] == [];
    var bw: seq<seq<byte>> := BytesWrites(v);
    ConcatFront(bw);
    assert bw[1..] == ws;
  }

  // ---------------------------------------------------------------------------
  // Headers and text

  /** fmt.Sprintf("%s: %s\r\n", key, value). */
  function HeaderLine(key: string, value: string): string
  {
    key + ": " + value + "\r\n"
  }

  /** The key and the value can be read back from a header line. */
  lemma HeaderLineParts(key: string, value: string)
    ensures var r := HeaderLine(key, value);
            && |r| == |key| + |value| + 4
            && r[..|key|] == key && r[|key|..|key| + 2] == ": "
            && r[|key| + 2..|r| - 2] == value && r[|r| - 2..] == "\r\n"
  {
  }

  function Line(s: string): seq<byte>
  {
    Utf8(s)
  }

  /** `--boundary`, the opening of a body part. */
  function Delimiter(bnd: string): string
  {
    "--" + bnd
  }

  /** `--boundary--`, the close delimiter. */
  function CloseDelimiter(bnd: string): string
  {
    "--" + bnd + "--"
  }

  lemma CrlfBytes()
    ensures Utf8("\r\n") == CRLF
  {
    assert "\r\n"[1..] == "\n";
    assert "\n"[1..] == "";
  }

  /** AttachmentStart's writes after the boundary is known. */
  function StartWrites(bnd: string): seq<seq<byte>>
  {
    [CRLF, Line(HeaderLine("Content-Type", "multipart/mixed; boundary=\"" + bnd + "\"")), CRLF]
  }

  /** The part headers of an attachment, up to the blank line before its body. */
  function PartHead(bnd: string, contentType: string, name: string): seq<seq<byte>>
  {
    PartOpening(bnd, contentType) + PartFields(name)
  }

  /** The delimiter line and the Content-Type header of a part. */
  function PartOpening(bnd: string, contentType: string): seq<seq<byte>>
  {
    [Line(Delimiter(bnd)), CRLF, Line(HeaderLine("Content-Type", contentType))]
  }

  /** The remaining headers of a part and the blank line that ends them. */
  function PartFields(name: string): seq<seq<byte>>
  {
    [Line(HeaderLine("Content-Transfer-Encoding", TransferEncoding)),
     Line(HeaderLine("Content-Disposition", "attachment; filename=\"" + name + "\"")),
     CRLF]
  }

  /** AttachmentAdd's writes after the boundary is known, as written: the body is Bytes of
      the raw attachment. */
  function AddWrites(bnd: string, contentType: string, name: string, attachment: seq<byte>): seq<seq<byte>>
  {
    PartHead(bnd, contentType, name) + (BytesWrites(attachment) + [CRLF])
  }

  /** The body that the part's headers announce: the base64 text of the attachment in lines
      of 76. */
  function AddFixedWrites(bnd: string, contentType: string, name: string, attachment: seq<byte>): seq<seq<byte>>
  {
    PartHead(bnd, contentType, name) + (ChunkWrites(Line(Base64.Encode(attachment))) + [CRLF])
  }

  /** AttachmentEnd's writes after the boundary is known: the close delimiter twice. */
  function EndWrites(bnd: string): seq<seq<byte>>
  {
    var close := Line(CloseDelimiter(bnd));
    [CRLF, close, CRLF, CRLF, close, CRLF, CRLF]
  }

  /** As written, the body announced as base64 is the raw attachment, whereas base64 text
      is pure ASCII: the attachment [0xFF] reaches the writer as the byte 0xFF. */
  lemma RawAttachmentBody(bnd: string, contentType: string, name: string, attachment: seq<byte>)
    ensures AddWrites(bnd, contentType, name, attachment)[6] == attachment
    ensures var text := Line(Base64.Encode(attachment));
            forall k | 0 <= k < |text| :: text[k] < 0x80
    ensures attachment == [255] ==>
              AddWrites(bnd, contentType, name, attachment)[6] != Line(Base64.Encode(attachment))
  {
    var e := Base64.Encode(attachment);
    EncodeAscii(attachment);
    Utf8Ascii(e);
  }

  // ---------------------------------------------------------------------------
  // Base64 bodies read back

  /** The encoded buffer is empty exactly when the attachment is. */
  lemma EncodedLenZero(n: nat)
    ensures Base64.EncodedLen(n) < 1 <==> n == 0
  {
    if n > 0 {
      assert (n + 2) / 3 >= 1;
    }
  }

  /** The text a receiver reads from ASCII bytes. */
  function Text(bs: seq<byte>): string
  {
    seq(|bs|, i requires 0 <= i < |bs| => bs[i] as char)
  }

  lemma {:induction false} EncodeAscii(bs: seq<byte>)
    ensures forall k | 0 <= k < |Base64.Encode(bs)| :: Base64.Encode(bs)[k] as int < 0x80
    decreases |bs|
  {
    if |bs| >= 3 {
      EncodeAscii(bs[3..]);
    }
  }

  lemma {:induction false} Utf8Ascii(s: string)
    requires forall k | 0 <= k < |s| :: s[k] as int < 0x80
    ensures |Utf8(s)| == |s| && forall k | 0 <= k < |s| :: Utf8(s)[k] == s[k] as int
    decreases |s|
  {
    if s != [] {
      Utf8Ascii(s[1..]);
      assert Utf8(s) == [s[0] as int] + Utf8(s[1..]);
    }
  }

  /** The corrected body decodes back to the attachment: joining its lines and reading
      them as base64 gives the attachment's bytes. */
  lemma FixedBodyDecodes(attachment: seq<byte>)
    ensures var body := Line(Base64.Encode(attachment));
            Base64.Decode(Text(Concat(Chunks(body)))) == attachment
  {
    var e := Base64.Encode(attachment);
    var body := Line(e);
    ChunksShape(body);
    EncodeAscii(attachment);
    Utf8Ascii(e);
    assert Text(body) == e;
    Base64.DecodeEncode(attachment);
  }

  // ---------------------------------------------------------------------------
  // The boundary

  function HexChar(v: int): (c: char)
    requires 0 <= v < 16
  {
    if v < 10 then ('0' as int + v) as char else ('a' as int + v - 10) as char
  }

  predicate IsLowerHex(c: char)
  {
    '0' <= c <= '9' || 'a' <= c <= 'f'
  }

  function HexCharValue(c: char): int
  {
    if '0' <= c <= '9' then c as int - '0' as int
    else if 'a' <= c <= 'f' then c as int - 'a' as int + 10
    else 0
  }

  /** fmt.Sprintf("%x", bs): two lower-case hex digits per byte. */
  function Hex(bs: seq<byte>): (r: string)
    ensures |r| == 2 * |bs|
    ensures forall k | 0 <= k < |r| :: IsLowerHex(r[k])
  {
    if bs == [] then []
    else [HexChar(bs[0] / 16), HexChar(bs[0] % 16)] + Hex(bs[1..])
  }

  function Unhex(s: string): seq<byte>
    decreases |s|
  {
    if |s| < 2 then []
    else
      var v := HexCharValue(s[0]) * 16 + HexCharValue(s[1]);
      [if 0 <= v < 256 then v else 0] + Unhex(s[2..])
  }

  /** Hex loses nothing. */
  lemma {:induction false} UnhexHex(bs: seq<byte>)
    ensures Unhex(Hex(bs)) == bs
    decreases |bs|
  {
    if bs != [] {
      var h := Hex(bs);
      assert h[2..] == Hex(bs[1..]);
      UnhexHex(bs[1..]);
    }
  }

  /** The first 2k digits are the digits of the first k bytes. */
  lemma {:induction false} HexPrefix(bs: seq<byte>, k: nat)
    requires k <= |bs|
    ensures Hex(bs)[..2 * k] == Hex(bs[..k])
    decreases k
  {
    if k > 0 {
      var h := Hex(bs);
      HexPrefix(bs[1..], k - 1);
      assert bs[..k][1..] == bs[1..][..k - 1];
      assert h[2..] == Hex(bs[1..]);
    }
  }

  /** getBoundary's value from thirty random bytes: the first 28 hex digits, i.e. the
      digits of the first 14 bytes. */
  function BoundaryOf(buf: seq<byte>): (bnd: string)
    requires |buf| == EntropyLength
    ensures |bnd| == BoundaryLength && bnd != ""
    ensures forall k | 0 <= k < |bnd| :: IsLowerHex(bnd[k])
    ensures Unhex(bnd) == buf[..BoundaryLength / 2]
  {
    HexPrefix(buf, BoundaryLength / 2);
    UnhexHex(buf[..BoundaryLength / 2]);
    Hex(buf)[..BoundaryLength]
  }

  /** What getBoundary returns and leaves behind: the boundary, the cached field, the
      random bytes not yet read, and the error. */
  datatype Draw = Draw(bnd: string, cached: string, random: seq<byte>, err: Option<string>)

  /** io.ReadFull's error when the source ends after `n` of the 30 bytes. */
  function ShortRead(n: nat): string
  {
    if n == 0 then "EOF" else "unexpected EOF"
  }

  /** getBoundary: the cached value when there is one, otherwise 28 hex digits of fresh
      random bytes, which are cached; a short random read fails and caches nothing. */
  function DrawBoundary(cached: string, random: seq<byte>): (d: Draw)
    ensures cached != "" ==> d == Draw(cached, cached, random, None)
    ensures d.err.None? ==> d.bnd == d.cached && |d.bnd| > 0
    ensures d.err.Some? ==> d.bnd == "" && d.cached == "" && d.random == []
  {
    if cached != "" then Draw(cached, cached, random, None)
    else if |random| < EntropyLength then Draw("", "", [], Some(ShortRead(|random|)))
    else
      var bnd := BoundaryOf(random[..EntropyLength]);
      Draw(bnd, bnd, random[EntropyLength..], None)
  }

  /** Once a boundary is drawn, every later call returns that same boundary and reads no
      more random bytes; a fresh boundary is 28 lower-case hex digits. */
  lemma BoundaryCached(cached: string, random: seq<byte>)
    ensures var d := DrawBoundary(cached, random);
            d.err.None? ==> DrawBoundary(d.cached, d.random) == Draw(d.bnd, d.bnd, d.random, None)
    ensures var d := DrawBoundary(cached, random);
            cached == "" && d.err.None? ==>
              |d.bnd| == BoundaryLength && forall k | 0 <= k < |d.bnd| :: IsLowerHex(d.bnd[k])
  {
  }

  // ---------------------------------------------------------------------------
  // The serialiser

  class IOData {
    /** The message writer, null for a nil writer. */
    const w: Writer?
    /** The cached boundary, "" until one is drawn. */
    var b: string
    /** The bytes crypto/rand will deliver next. */
    var random: seq<byte>

    constructor (w: Writer?, random: seq<byte>)
      ensures this.w == w && b == "" && this.random == random
    {
      this.w := w;
      b := "";
      this.random := random;
    }

    function Target(): set<object>
    {
      if w != null then {w} else {}
    }

    /** The writes `ws` were issued in order, stopping at the first failure; a nil writer
        fails the first one with "empty writer". */
    twostate predicate Emitted(new ws: seq<seq<byte>>, new err: Option<string>)
      reads Target()
    {
      if w == null then err == Some(EmptyWriter)
      else
        var r := Put(old(w.State()), ws);
        w.State() == r.0 && err == Failure(r.1)
    }

    /** One write of `data`; a nil writer refuses it with "empty writer". */
    twostate predicate Sent(new data: seq<byte>, new err: Option<string>)
      reads Target()
    {
      if w == null then err == Some(EmptyWriter)
      else Wrote(old(w.State()), w.State(), data, err.None?) && err == Failure(err.None?)
    }

    twostate predicate WriterUnchanged()
      reads Target()
    {
      w != null ==> w.State() == old(w.State())
    }

    method GetBoundary() returns (bnd: string, err: Option<string>)
      modifies this
      ensures Draw(bnd, b, random, err) == DrawBoundary(old(b), old(random))
    {
      if b == "" {
        if |random| < EntropyLength {
          err := Some(ShortRead(|random|));
          random := [];
          bnd := "";
          return;
        }
        var buf := random[..EntropyLength];
        random := random[EntropyLength..];
        var hex := Hex(buf);
        b := hex[..BoundaryLength];
      }
      bnd, err := b, None;
    }

    method String(value: string) returns (err: Option<string>)
      modifies Target()
      ensures Sent(Line(value), err)
    {
      if w == null {
        return Some(EmptyWriter);
      }
      err := w.Write(Utf8(value));
    }

    method CRLF() returns (err: Option<string>)
      modifies Target()
      ensures Sent(Common.CRLF, err)
    {
      CrlfBytes();
      err := String("\r\n");
    }

    method Header(key: string, value: string) returns (err: Option<string>)
      modifies Target()
      ensures Sent(Line(HeaderLine(key, value)), err)
    {
      err := String(key + ": " + value + "\r\n");
    }

    /** Bytes as written: the whole value, then the value again, 76 bytes to a line. */
    method Bytes(value: seq<byte>) returns (err: Option<string>)
      modifies Target()
      ensures Emitted(BytesWrites(value), err)
    {
      if w == null {
        return Some(EmptyWriter);
      }
      var wr := w;
      ghost var s0 := wr.State();
      ghost var cur := s0;
      err := wr.Write(value);
      PutNext(s0, BytesWrites(value), cur, BytesWrites(value), wr.State(), err.None?);
      if err.Some? {
        return;
      }
      assert BytesWrites(value)[1..] == ChunkWrites(value[0..]);
      err := WriteLines(wr, value, s0, BytesWrites(value));
    }

    /** Bytes without the first whole-value write: only the lines. */
    method BytesFixed(value: seq<byte>) returns (err: Option<string>)
      modifies Target()
      ensures Emitted(ChunkWrites(value), err)
    {
      if w == null {
        return Some(EmptyWriter);
      }
      var wr := w;
      assert value[0..] == value;
      err := WriteLines(wr, value, wr.State(), ChunkWrites(value));
    }

    method AttachmentStart() returns (err: Option<string>)
      modifies this, Target()
      ensures var d := DrawBoundary(old(b), old(random));
              && b == d.cached && random == d.random
              && (d.err.Some? ==> err == d.err && WriterUnchanged())
              && (d.err.None? ==> Emitted(StartWrites(d.bnd), err))
    {
      var bnd: string;
      bnd, err := GetBoundary();
      if err.Some? {
        return;
      }
      ghost var ws := StartWrites(bnd);
      ghost var s0 := if w != null then w.State() else Sink([], 0);
      ghost var rest := ws;
      ghost var cur := s0;
      err := CRLF();
      if w != null {
        PutNext(s0, ws, cur, rest, w.State(), err.None?);
      }
      if err.Some? {
        return;
      }
      cur, rest := w.State(), rest[1..];
      err := Header("Content-Type", "multipart/mixed; boundary=\"" + bnd + "\"");
      PutNext(s0, ws, cur, rest, w.State(), err.None?);
      if err.Some? {
        return;
      }
      cur, rest := w.State(), rest[1..];
      err := CRLF();
      PutNext(s0, ws, cur, rest, w.State(), err.None?);
    }

    /** AttachmentAdd as written: the headers announce base64, the body is Bytes of the raw
        attachment. An empty attachment fails before anything happens. */
    method AttachmentAdd(contentType: string, attachmentName: string, attachment: seq<byte>)
      returns (err: Option<string>)
      modifies this, Target()
      ensures attachment == [] ==>
                err == Some(EmptyBuffer) && b == old(b) && random == old(random) && WriterUnchanged()
      ensures attachment != [] ==>
                var d := DrawBoundary(old(b), old(random));
                && b == d.cached && random == d.random
                && (d.err.Some? ==> err == d.err && WriterUnchanged())
                && (d.err.None? ==> Emitted(AddWrites(d.bnd, contentType, attachmentName, attachment), err))
    {
      // The encoded buffer is only measured: its length is EncodedLen(len(attachment)).
      var encodedLen := Base64.EncodedLen(|attachment|);
      EncodedLenZero(|attachment|);
      if encodedLen < 1 {
        return Some(EmptyBuffer);
      }
      var bnd: string;
      bnd, err := GetBoundary();
      if err.Some? {
        return;
      }
      err := AddPart(bnd, contentType, attachmentName, attachment);
    }

    /** The writes of AttachmentAdd once the boundary is known. */
    method AddPart(bnd: string, contentType: string, attachmentName: string, attachment: seq<byte>)
      returns (err: Option<string>)
      modifies Target()
      ensures Emitted(AddWrites(bnd, contentType, attachmentName, attachment), err)
    {
      ghost var head := PartHead(bnd, contentType, attachmentName);
      ghost var tail := BytesWrites(attachment) + [Common.CRLF];
      ghost var s0 := if w != null then w.State() else Sink([], 0);
      err := PartHeaders(bnd, contentType, attachmentName);
      if w != null {
        PutAppend(s0, head, tail);
      }
      if err.Some? {
        return;
      }
      ghost var cur := w.State();
      err := Bytes(attachment);
      PutAppend(cur, BytesWrites(attachment), [Common.CRLF]);
      if err.Some? {
        return;
      }
      cur := w.State();
      err := CRLF();
      PutOne(cur, w.State(), Common.CRLF, err.None?);
    }

    /** AttachmentAdd with the body the headers announce: the base64 text of the attachment
        in lines of 76. */
    method AttachmentAddFixed(contentType: string, attachmentName: string, attachment: seq<byte>)
      returns (err: Option<string>)
      modifies this, Target()
      ensures attachment == [] ==>
                err == Some(EmptyBuffer) && b == old(b) && random == old(random) && WriterUnchanged()
      ensures attachment != [] ==>
                var d := DrawBoundary(old(b), old(random));
                && b == d.cached && random == d.random
                && (d.err.Some? ==> err == d.err && WriterUnchanged())
                && (d.err.None? ==> Emitted(AddFixedWrites(d.bnd, contentType, attachmentName, attachment), err))
    {
      var encodedLen := Base64.EncodedLen(|attachment|);
      EncodedLenZero(|attachment|);
      if encodedLen < 1 {
        return Some(EmptyBuffer);
      }
      var bnd: string;
      bnd, err := GetBoundary();
      if err.Some? {
        return;
      }
      err := AddFixedPart(bnd, contentType, attachmentName, attachment);
    }

    /** The writes of AttachmentAddFixed once the boundary and the base64 text are known. */
    method AddFixedPart(bnd: string, contentType: string, attachmentName: string, attachment: seq<byte>)
      returns (err: Option<string>)
      modifies Target()
      ensures Emitted(AddFixedWrites(bnd, contentType, attachmentName, attachment), err)
    {
      var body := Line(Base64.Encode(attachment));
      ghost var head := PartHead(bnd, contentType, attachmentName);
      ghost var tail := ChunkWrites(body) + [Common.CRLF];
      ghost var s0 := if w != null then w.State() else Sink([], 0);
      err := PartHeaders(bnd, contentType, attachmentName);
      if w != null {
        PutAppend(s0, head, tail);
      }
      if err.Some? {
        return;
      }
      ghost var cur := w.State();
      err := BytesFixed(body);
      PutAppend(cur, ChunkWrites(body), [Common.CRLF]);
      if err.Some? {
        return;
      }
      cur := w.State();
      err := CRLF();
      PutOne(cur, w.State(), Common.CRLF, err.None?);
    }

    method AttachmentEnd() returns (err: Option<string>)
      modifies this, Target()
      ensures var d := DrawBoundary(old(b), old(random));
              && b == d.cached && random == d.random
              && (d.err.Some? ==> err == d.err && WriterUnchanged())
              && (d.err.None? ==> Emitted(EndWrites(d.bnd), err))
    {
      var bnd: string;
      bnd, err := GetBoundary();
      if err.Some? {
        return;
      }
      var close := "--" + bnd + "--";
      ghost var ws := EndWrites(bnd);
      ghost var s0 := if w != null then w.State() else Sink([], 0);
      ghost var rest := ws;
      ghost var cur := s0;
      err := CRLF();
      if w != null {
        PutNext(s0, ws, cur, rest, w.State(), err.None?);
      }
      if err.Some? {
        return;
      }
      cur, rest := w.State(), rest[1..];
      err := String(close);
      PutNext(s0, ws, cur, rest, w.State(), err.None?);
      if err.Some? {
        return;
      }
      cur, rest := w.State(), rest[1..];
      err := CRLF();
      PutNext(s0, ws, cur, rest, w.State(), err.None?);
      if err.Some? {
        return;
      }
      cur, rest := w.State(), rest[1..];
      err := CRLF();
      PutNext(s0, ws, cur, rest, w.State(), err.None?);
      if err.Some? {
        return;
      }
      cur, rest := w.State(), rest[1..];
      err := String(close);
      PutNext(s0, ws, cur, rest, w.State(), err.None?);
      if err.Some? {
        return;
      }
      cur, rest := w.State(), rest[1..];
      err := CRLF();
      PutNext(s0, ws, cur, rest, w.State(), err.None?);
      if err.Some? {
        return;
      }
      cur, rest := w.State(), rest[1..];
      err := CRLF();
      PutNext(s0, ws, cur, rest, w.State(), err.None?);
    }

    /** The first six writes of AttachmentAdd: the delimiter and the part's headers. */
    method PartHeaders(bnd: string, contentType: string, name: string) returns (err: Option<string>)
      modifies Target()
      ensures Emitted(PartHead(bnd, contentType, name), err)
    {
      ghost var s0 := if w != null then w.State() else Sink([], 0);
      err := OpenPart(bnd, contentType);
      if w != null {
        PutAppend(s0, PartOpening(bnd, contentType), PartFields(name));
      }
      if err.Some? {
        return;
      }
      err := PartFieldLines(name);
    }

    method OpenPart(bnd: string, contentType: string) returns (err: Option<string>)
      modifies Target()
      ensures Emitted(PartOpening(bnd, contentType), err)
    {
      ghost var ws := PartOpening(bnd, contentType);
      ghost var s0 := if w != null then w.State() else Sink([], 0);
      err := String("--" + bnd);
      if w != null {
        PutNext(s0, ws, s0, ws, w.State(), err.None?);
      }
      if err.Some? {
        return;
      }
      ghost var cur := w.State();
      err := CRLF();
      PutNext(s0, ws, cur, ws[1..], w.State(), err.None?);
      if err.Some? {
        return;
      }
      cur := w.State();
      err := Header("Content-Type", contentType);
      PutNext(s0, ws, cur, ws[2..], w.State(), err.None?);
    }

    method PartFieldLines(name: string) returns (err: Option<string>)
      modifies Target()
      ensures Emitted(PartFields(name), err)
    {
      ghost var ws := PartFields(name);
      ghost var s0 := if w != null then w.State() else Sink([], 0);
      err := Header("Content-Transfer-Encoding", TransferEncoding);
      if w != null {
        PutNext(s0, ws, s0, ws, w.State(), err.None?);
      }
      if err.Some? {
        return;
      }
      ghost var cur := w.State();
      err := Header("Content-Disposition", "attachment; filename=\"" + name + "\"");
      PutNext(s0, ws, cur, ws[1..], w.State(), err.None?);
      if err.Some? {
        return;
      }
      cur := w.State();
      err := CRLF();
      PutNext(s0, ws, cur, ws[2..], w.State(), err.None?);
    }
  }

  /** The chunking loop of Bytes: 76 bytes at a time, each line followed by CRLF, then the
      remainder if there is one; the line breaks go straight to the writer, which is what
      i.CRLF() amounts to once the writer is known to be set. `ws` ends with the line writes of `value`, and everything
      before them has already been written. */
  method WriteLines(wr: Writer, value: seq<byte>, ghost s0: Sink, ghost ws: seq<seq<byte>>)
    returns (err: Option<string>)
    requires Put(s0, ws) == Put(wr.State(), ChunkWrites(value[0..]))
    modifies wr
    ensures wr.State() == Put(s0, ws).0 && err == Failure(Put(s0, ws).1)
  {
    var tmp: seq<byte> := [];
    ghost var done: nat := 0;
    var n := 0;
    var l := |value|;
    while n < l
      invariant done <= n <= l && done % ChunkSize == 0 && n - done < ChunkSize
      invariant tmp == value[done..n]
      invariant Put(s0, ws) == Put(wr.State(), ChunkWrites(value[done..]))
    {
      tmp := tmp + [value[n]];
      if (n + 1) % ChunkSize == 0 {
        var next := n + 1;
        FullLine(done, n, next);
        assert tmp == value[done..next];
        ChunkWritesFull(value, done, next);
        ghost var rest := ChunkWrites(value[done..]);
        ghost var cur := wr.State();
        err := wr.Write(tmp);
        PutNext(s0, ws, cur, rest, wr.State(), err.None?);
        if err.Some? {
          return;
        }
        cur, rest := wr.State(), rest[1..];
        err := wr.Write(CRLF);
        PutNext(s0, ws, cur, rest, wr.State(), err.None?);
        if err.Some? {
          return;
        }
        tmp := [];
        done := next;
      }
      n := n + 1;
    }
    ChunkWritesTail(value, done);
    assert tmp == value[done..];
    if |tmp| != 0 {
      ghost var rest := ChunkWrites(value[done..]);
      ghost var cur := wr.State();
      err := wr.Write(tmp);
      PutNext(s0, ws, cur, rest, wr.State(), err.None?);
      if err.Some? {
        return;
      }
      cur, rest := wr.State(), rest[1..];
      err := wr.Write(CRLF);
      PutNext(s0, ws, cur, rest, wr.State(), err.None?);
      return;
    }
    err := None;
  }
}
