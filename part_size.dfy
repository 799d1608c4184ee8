/** The part-size helper of the S3 multipart upload: a size unit type, and a reader that
    hands out one part of an underlying byte source at a time while numbering the parts
    it has completed. The underlying source is modelled after bytes.Reader. */
module AwsPartSize {
  import opened Common

  const MinInt64: int := -0x8000_0000_0000_0000
  const MaxInt64: int := 0x7FFF_FFFF_FFFF_FFFF
  const MinInt32: int := -0x8000_0000
  const MaxInt32: int := 0x7FFF_FFFF

  type Int64 = x: int | MinInt64 <= x <= MaxInt64

  /** A conversion to int64 or an int64 increment: two's-complement wrap-around. */
  function Wrap64(x: int): (r: Int64)
    ensures (x - r) % 0x1_0000_0000_0000_0000 == 0
    ensures MinInt64 <= x <= MaxInt64 ==> r == x
  {
    (x - MinInt64) % 0x1_0000_0000_0000_0000 + MinInt64
  }

  /** int32(x): the low 32 bits read as a signed number. */
  function Int32Of(x: int): (r: int)
    ensures MinInt32 <= r <= MaxInt32
    ensures (x - r) % 0x1_0000_0000 == 0
    ensures MinInt32 <= x <= MaxInt32 ==> r == x
  {
    (x - MinInt32) % 0x1_0000_0000 + MinInt32
  }

  /** The first int64 past int32's range is numbered as the smallest int32. */
  lemma Int32OfWraps()
    ensures Int32Of(MaxInt32 + 1) == MinInt32
  {
  }

  // ---------------------------------------------------------------------------
  // Size units

  /** PartSize is an int64 count of bytes. */
  type PartSize = Int64

  const SizeBytes: PartSize := 1
  const SizeKiloBytes: PartSize := 1024 * SizeBytes
  const SizeMegaBytes: PartSize := 1024 * SizeKiloBytes
  const SizeGigaBytes: PartSize := 1024 * SizeMegaBytes
  const SizeTeraBytes: PartSize := 1024 * SizeGigaBytes
  const SizePetaBytes: PartSize := 1024 * SizeTeraBytes

  /** The units from the smallest to the largest. */
  const Units: seq<PartSize> := [SizeBytes, SizeKiloBytes, SizeMegaBytes, SizeGigaBytes,
                                 SizeTeraBytes, SizePetaBytes]

  /** Each unit is 1024 times the one before, starting from one byte. */
  lemma UnitsScale()
    ensures |Units| == 6 && Units[0] == 1
    ensures forall k | 0 < k < |Units| :: Units[k] == 1024 * Units[k - 1]
  {
  }

  /** PartSize.String: the unit's short name, or "" for a size that is not a unit. */
  function UnitName(p: PartSize): (r: string)
  {
    if p == SizePetaBytes then "PB"
    else if p == SizeTeraBytes then "TB"
    else if p == SizeGigaBytes then "GB"
    else if p == SizeMegaBytes then "MB"
    else if p == SizeKiloBytes then "KB"
    else if p == SizeBytes then "B"
    else ""
  }

  /** Exactly the six units have a name, and no two units share one. */
  lemma UnitNames(p: PartSize, q: PartSize)
    ensures UnitName(p) != "" <==> p in Units
    ensures UnitName(p) != "" && UnitName(p) == UnitName(q) ==> p == q
    ensures UnitName(SizeBytes) == "B" && UnitName(SizePetaBytes) == "PB"
  {
  }

  /** SetSize and SetSizeInt64: Go's int is taken to be 64 bits wide, so both keep the value. */
  function SetSize(val: Int64): PartSize
  {
    val
  }

  /** Int and Int64 give the byte count back. */
  function Int(p: PartSize): Int64
  {
    p
  }

  /** The conversions are inverse to each other. */
  lemma SizeConversions(val: Int64, p: PartSize)
    ensures Int(SetSize(val)) == val && SetSize(Int(p)) == p
  {
  }

  // ---------------------------------------------------------------------------
  // The byte source

  const EOF := "EOF"

  /** The observable state of the byte source: its bytes and the read position. */
  datatype Src = Src(data: seq<byte>, pos: nat)

  /** bytes.Reader.Read into a buffer of `len` bytes: EOF once everything was read,
      otherwise as many bytes as fit and remain. */
  function SrcRead(s: Src, len: nat): (r: (Src, nat))
    ensures r.0.data == s.data && r.0.pos == s.pos + r.1
    ensures r.1 <= len
    ensures s.pos < |s.data| ==> r.1 == Min(len, |s.data| - s.pos)
    ensures s.pos >= |s.data| ==> r.1 == 0
  {
    if s.pos >= |s.data| then (s, 0)
    else var n := Min(len, |s.data| - s.pos); (s.(pos := s.pos + n), n)
  }

  /** The error bytes.Reader.Read reports: EOF once everything was read. */
  function SrcError(s: Src): Option<string>
  {
    if s.pos >= |s.data| then Some(EOF) else None
  }

  class ByteSource {
    const data: seq<byte>
    var pos: nat

    constructor (data: seq<byte>)
      ensures this.data == data && pos == 0 && Valid()
    {
      this.data := data;
      pos := 0;
    }

    ghost function State(): Src
      reads this
    {
      Src(data, pos)
    }

    /** The read position never passes the end of the data. */
    ghost predicate Valid()
      reads this
    {
      pos <= |data|
    }

    /** Reads into the first `len` cells of `b` and leaves the rest of `b` alone. */
    method Read(b: array<byte>, len: nat) returns (n: nat, err: Option<string>)
      requires Valid() && len <= b.Length
      modifies this, b
      ensures Valid()
      ensures (State(), n) == SrcRead(old(State()), len) && err == SrcError(old(State()))
      ensures old(pos) + n <= |data| && b[..n] == data[old(pos)..old(pos) + n]
      ensures b[n..] == old(b[n..])
    {
      if pos >= |data| {
        return 0, Some(EOF);
      }
      var start := pos;
      n := Min(len, |data| - start);
      for k := 0 to n
        invariant forall t | 0 <= t < k :: b[t] == data[start + t]
        invariant b[n..] == old(b[n..])
      {
        b[k] := data[start + k];
      }
      pos := start + n;
      err := None;
    }
  }

  // ---------------------------------------------------------------------------
  // Reading a part

  /** The reader's observable state: the source, the part size p, the in-part counter j
      and the EOF flag e. */
  datatype ReaderState = ReaderState(src: Src, p: int, j: int, e: bool)

  /** What one Read does: the new state, the count it returns, its error, and the bytes
      that end up at the front of the caller's buffer. */
  datatype ReadResult = ReadResult(st: ReaderState, n: nat, err: Option<string>, filled: seq<byte>)

  /** Read as written: nothing after EOF or once j reaches p; a buffer longer than what
      is left of the part is swapped for a fresh one; j is never advanced. */
  function ReadAsWritten(st: ReaderState, len: nat): (r: ReadResult)
    requires st.src.pos <= |st.src.data|
  {
    if st.e || st.j >= st.p then ReadResult(st, 0, Some(EOF), [])
    else
      var into := if len > st.p - st.j then st.p - st.j else len;
      var (s2, n) := SrcRead(st.src, into);
      var err := SrcError(st.src);
      var got := st.src.data[st.src.pos..st.src.pos + n];
      ReadResult(st.(src := s2, e := err == Some(EOF)), n, err,
                 if len > st.p - st.j then [] else got)
  }

  /** Read as intended: the caller's buffer is cut down to what is left of the part and
      j counts the bytes handed out. */
  function ReadFixedSpec(st: ReaderState, len: nat): (r: ReadResult)
    requires st.src.pos <= |st.src.data|
  {
    if st.e || st.j >= st.p then ReadResult(st, 0, Some(EOF), [])
    else
      var into := if len > st.p - st.j then st.p - st.j else len;
      var (s2, n) := SrcRead(st.src, into);
      var err := SrcError(st.src);
      ReadResult(st.(src := s2, e := err == Some(EOF), j := st.j + n), n, err,
                 st.src.data[st.src.pos..st.src.pos + n])
  }

  /** `k` calls of Read with a buffer of `len` bytes: the final state and the total count. */
  function ReadsAsWritten(st: ReaderState, len: nat, k: nat): (r: (ReaderState, nat))
    requires st.src.pos <= |st.src.data|
    ensures r.0.src.pos <= |r.0.src.data|
    decreases k
  {
    if k == 0 then (st, 0)
    else
      var r := ReadAsWritten(st, len);
      var rest := ReadsAsWritten(r.st, len, k - 1);
      (rest.0, r.n + rest.1)
  }

  function ReadsFixed(st: ReaderState, len: nat, k: nat): (r: (ReaderState, nat))
    requires st.src.pos <= |st.src.data|
    ensures r.0.src.pos <= |r.0.src.data|
    decreases k
  {
    if k == 0 then (st, 0)
    else
      var r := ReadFixedSpec(st, len);
      var rest := ReadsFixed(r.st, len, k - 1);
      (rest.0, r.n + rest.1)
  }

  /** After EOF every Read returns nothing. */
  lemma {:induction false} ReadsAfterEof(st: ReaderState, len: nat, k: nat)
    requires st.e && st.src.pos <= |st.src.data|
    ensures ReadsAsWritten(st, len, k).1 == 0
    decreases k
  {
    if k > 0 {
      ReadsAfterEof(st, len, k - 1);
    }
  }

  /** Read as written never ends a part: reading one byte at a time, `k` calls deliver
      min(k, what the source holds) bytes whatever the part size, so a part of p bytes
      hands out more than p as long as the source has more. */
  lemma {:induction false} AsWrittenOverrun(st: ReaderState, k: nat)
    requires !st.e && st.j == 0 < st.p && st.src.pos <= |st.src.data|
    ensures ReadsAsWritten(st, 1, k).1 == Min(k, |st.src.data| - st.src.pos)
    ensures k > st.p && |st.src.data| - st.src.pos > st.p ==> ReadsAsWritten(st, 1, k).1 > st.p
    decreases k
  {
    if k > 0 {
      var r := ReadAsWritten(st, 1);
      if st.src.pos < |st.src.data| {
        assert r.n == 1 && r.st.j == 0 && !r.st.e && r.st.src.pos == st.src.pos + 1;
        AsWrittenOverrun(r.st, k - 1);
      } else {
        assert r.st.e && r.n == 0;
        ReadsAfterEof(r.st, 1, k - 1);
      }
    }
  }

  /** Read as written reports bytes it never puts in the caller's buffer: when the buffer
      is longer than what is left of the part and the source has data, the count is
      positive and nothing reaches the buffer. */
  lemma StaleBuffer(st: ReaderState, len: nat)
    requires !st.e && st.src.pos <= |st.src.data| && 0 <= st.j < st.p && len > st.p - st.j && st.src.pos < |st.src.data|
    ensures ReadAsWritten(st, len).n > 0 && ReadAsWritten(st, len).filled == []
  {
  }

  /** The fixed Read puts exactly the bytes it counts, read from the source in order, at
      the front of the caller's buffer, and keeps j within the part. */
  lemma ReadFixedDelivers(st: ReaderState, len: nat)
    requires 0 <= st.j && st.src.pos <= |st.src.data|
    ensures var r := ReadFixedSpec(st, len);
            && |r.filled| == r.n <= len
            && r.filled == st.src.data[st.src.pos..st.src.pos + r.n]
            && r.st.j == st.j + r.n
            && (st.j <= st.p ==> r.st.j <= st.p)
  {
  }

  /** However many times the fixed Read is called, a part hands out at most p - j bytes,
      and j counts them. */
  lemma {:induction false} FixedBounded(st: ReaderState, len: nat, k: nat)
    requires 0 <= st.j <= st.p && st.src.pos <= |st.src.data|
    ensures ReadsFixed(st, len, k).1 <= st.p - st.j
    ensures ReadsFixed(st, len, k).0.j == st.j + ReadsFixed(st, len, k).1
    decreases k
  {
    if k > 0 {
      var r := ReadFixedSpec(st, len);
      assert r.st.j == st.j + r.n <= st.p;
      FixedBounded(r.st, len, k - 1);
    }
  }

  // ---------------------------------------------------------------------------
  // The reader

  /** A completed part: its entity tag (nil when none was given) and its number. */
  datatype CompletedPart = CompletedPart(eTag: Option<string>, partNumber: int)

  class ReaderPartSize {
    const src: ByteSource
    const p: Int64
    var i: Int64
    var j: Int64
    var e: bool
    /** The completed-upload record: nil until the first NextPart. */
    var c: Option<seq<CompletedPart>>

    /** NewReaderPartSize. */
    constructor (rd: ByteSource, size: PartSize)
      ensures src == rd && p == Int(size)
      ensures i == 0 && j == 0 && !e && c.None?
    {
      src, p := rd, Int(size);
      i, j, e, c := 0, 0, false, None;
    }

    ghost function State(): ReaderState
      reads this, src
    {
      ReaderState(src.State(), p, j, e)
    }

    /** Closes the current part: the part is recorded with the current counter as its
        number, the counter moves on and the in-part counter restarts. */
    method NextPart(eTag: Option<string>)
      modifies this`c, this`i, this`j
      ensures c == Some((if old(c).Some? then old(c).value else []) +
                        [CompletedPart(eTag, Int32Of(old(i)))])
      ensures i == Wrap64(old(i) + 1) && j == 0
    {
      var parts := if c.Some? then c.value else [];
      parts := parts + [CompletedPart(eTag, Int32Of(i))];
      c := Some(parts);
      i := Wrap64(i + 1);
      j := 0;
    }

    /** CurrPart: the part counter as an int32. */
    method CurrPart() returns (r: int)
      ensures r == Int32Of(i) && MinInt32 <= r <= MaxInt32
    {
      r := Int32Of(i);
    }

    method CompPart() returns (r: Option<seq<CompletedPart>>)
      ensures r == c
    {
      r := c;
    }

    method IeOEF() returns (r: bool)
      ensures r == e
    {
      r := e;
    }

    /** Read as written. */
    method Read(buf: array<byte>) returns (n: nat, err: Option<string>)
      requires src.Valid()
      modifies this`e, src, buf
      ensures src.Valid()
      ensures var r := ReadAsWritten(old(State()), buf.Length);
              && State() == r.st && n == r.n && err == r.err
              && |r.filled| <= buf.Length
              && buf[..|r.filled|] == r.filled && buf[|r.filled|..] == old(buf[|r.filled|..])
    {
      if e || j >= p {
        return 0, Some(EOF);
      }
      ghost var s0 := src.State();
      if buf.Length > p - j {
        var tmp := new byte[p - j](_ => 0);
        n, err := src.Read(tmp, tmp.Length);
      } else {
        n, err := src.Read(buf, buf.Length);
      }
      assert s0.pos + n <= |s0.data|;
      if err == Some(EOF) {
        e := true;
      }
    }

    /** Read with the part bound applied to the caller's buffer and j advanced. */
    method ReadFixed(buf: array<byte>) returns (n: nat, err: Option<string>)
      requires src.Valid()
      modifies this`e, this`j, src, buf
      ensures src.Valid()
      ensures var r := ReadFixedSpec(old(State()), buf.Length);
              && State() == r.st && n == r.n && err == r.err
              && |r.filled| <= buf.Length
              && buf[..|r.filled|] == r.filled && buf[|r.filled|..] == old(buf[|r.filled|..])
    {
      if e || j >= p {
        return 0, Some(EOF);
      }
      ghost var st0 := State();
      var into := if buf.Length > p - j then p - j else buf.Length;
      n, err := src.Read(buf, into);
      ghost var r := ReadFixedSpec(st0, buf.Length);
      assert r.n == n && r.err == err && r.filled == buf[..n];
      if err == Some(EOF) {
        e := true;
      }
      j := j + n;
    }
  }
}
