/** The MIME header encoder of the mail package: header sanitising, the "Q" encoding of
    section 4.2 of RFC 2047 one UTF-8 character at a time, and the folding of the result
    into lines of section 2.2.3 of RFC 5322. The buffered writer is replaced by the byte
    sequence `written`, which receives everything the encoder flushes. */
module MailEncoder {
  import opened Common

  const EQ: byte := 61        // '='
  const QM: byte := 63        // '?'
  const US: byte := 95        // '_'
  const UpperQ: byte := 81    // 'Q'
  const WordEnd: seq<byte> := [QM, EQ]
  const MaxLineLength: int := 76

  /** isVchar: a visible (printing) character, 0x21 through 0x7E. */
  predicate IsVchar(c: byte)
  {
    0x21 <= c <= 0x7E
  }

  /** isWSP: space or horizontal tab. */
  predicate IsWsp(c: byte)
  {
    c == SP || c == TAB
  }

  predicate AllPrintable(p: seq<byte>)
  {
    forall i | 0 <= i < |p| :: IsVchar(p[i]) || IsWsp(p[i])
  }

  // ---------------------------------------------------------------------------
  // secureHeader

  /** The white space strings.TrimSpace removes, restricted to ASCII. */
  predicate IsAsciiSpace(c: byte)
  {
    c == TAB || c == LF || c == 11 || c == 12 || c == CR || c == SP
  }

  function TrimLeftBytes(s: seq<byte>): (r: seq<byte>)
    ensures |r| <= |s| && r == s[|s| - |r|..]
    ensures r != [] ==> !IsAsciiSpace(r[0])
    ensures (s == [] || !IsAsciiSpace(s[0])) ==> r == s
  {
    if s != [] && IsAsciiSpace(s[0]) then TrimLeftBytes(s[1..]) else s
  }

  function TrimRightBytes(s: seq<byte>): (r: seq<byte>)
    ensures |r| <= |s| && r == s[..|r|]
    ensures r != [] ==> !IsAsciiSpace(r[|r| - 1])
    ensures (s == [] || !IsAsciiSpace(s[|s| - 1])) ==> r == s
  {
    if s != [] && IsAsciiSpace(s[|s| - 1]) then TrimRightBytes(s[..|s| - 1]) else s
  }

  function TrimBytes(s: seq<byte>): (r: seq<byte>)
    ensures r != [] ==> !IsAsciiSpace(r[0]) && !IsAsciiSpace(r[|r| - 1])
  {
    TrimRightBytes(TrimLeftBytes(s))
  }

  /** strings.Replace(s, c, "", -1) for a one-byte `c`. */
  function Without(s: seq<byte>, c: byte): (r: seq<byte>)
    ensures c !in r
    ensures c !in s ==> r == s
  {
    if s == [] then [] else (if s[0] == c then [] else [s[0]]) + Without(s[1..], c)
  }

  lemma {:induction false} WithoutSubset(s: seq<byte>, c: byte, x: byte)
    requires x in Without(s, c)
    ensures x in s
  {
    if s != [] && s[0] != x {
      assert x in Without(s[1..], c);
      WithoutSubset(s[1..], c, x);
    }
  }

  lemma {:induction false} WithoutKeepsLast(s: seq<byte>, c: byte)
    requires s != [] && s[|s| - 1] != c
    ensures Without(s, c) != [] && Without(s, c)[|Without(s, c)| - 1] == s[|s| - 1]
  {
    if |s| > 1 {
      WithoutKeepsLast(s[1..], c);
    }
  }

  lemma WithoutKeepsEnds(s: seq<byte>, c: byte)
    requires s != [] && s[0] != c && s[|s| - 1] != c
    ensures Without(s, c) != []
    ensures Without(s, c)[0] == s[0] && Without(s, c)[|Without(s, c)| - 1] == s[|s| - 1]
  {
    WithoutKeepsLast(s, c);
  }

  /** secureHeader: trim, then delete every CR, LF and TAB. */
  function SecureHeader(text: seq<byte>): seq<byte>
  {
    Without(Without(Without(TrimBytes(text), CR), LF), TAB)
  }

  /** The sanitised header holds no CR, LF or TAB, and neither starts nor ends with
      white space. */
  lemma SecureHeaderClean(text: seq<byte>)
    ensures var r := SecureHeader(text);
            && CR !in r && LF !in r && TAB !in r
            && (r != [] ==> !IsAsciiSpace(r[0]) && !IsAsciiSpace(r[|r| - 1]))
  {
    var t := TrimBytes(text);
    if t != [] {
      WithoutKeepsEnds(t, CR);
      WithoutKeepsEnds(Without(t, CR), LF);
      WithoutKeepsEnds(Without(Without(t, CR), LF), TAB);
    }
    var r1 := Without(t, CR);
    var r2 := Without(r1, LF);
    var r := Without(r2, TAB);
    if CR in r {
      WithoutSubset(r2, TAB, CR);
      WithoutSubset(r1, LF, CR);
    }
    if LF in r {
      WithoutSubset(r2, TAB, LF);
    }
  }

  lemma SecureHeaderIdempotent(text: seq<byte>)
    ensures SecureHeader(SecureHeader(text)) == SecureHeader(text)
  {
    var r := SecureHeader(text);
    SecureHeaderClean(text);
    assert TrimBytes(r) == r;
  }

  // ---------------------------------------------------------------------------
  // The Q encoding

  function HexDigit(v: int): (d: byte)
    requires 0 <= v < 16
  {
    if v < 10 then 48 + v else 55 + v
  }

  function HexValue(d: byte): (v: int)
    ensures 0 <= v < 16
  {
    if 48 <= d <= 57 then d - 48 else if 65 <= d <= 70 then d - 55 else 0
  }

  /** The encoding of one byte: space as '_', a visible character other than '=', '?'
      and '_' as itself, anything else as '=' and two upper-case hexadecimal digits. */
  function QByte(c: byte): seq<byte>
  {
    if c == SP then [US]
    else if IsVchar(c) && c != EQ && c != QM && c != US then [c]
    else [EQ, HexDigit(c / 16), HexDigit(c % 16)]
  }

  function QEncode(bs: seq<byte>): (r: seq<byte>)
    ensures |bs| <= |r| <= 3 * |bs|
  {
    if bs == [] then [] else QByte(bs[0]) + QEncode(bs[1..])
  }

  lemma {:induction false} QEncodeConcat(a: seq<byte>, b: seq<byte>)
    ensures QEncode(a + b) == QEncode(a) + QEncode(b)
  {
    if a == [] {
      assert a + b == b;
    } else {
      assert (a + b)[1..] == a[1..] + b;
      QEncodeConcat(a[1..], b);
    }
  }

  /** Decoding of "Q"-encoded text after section 4.2 of RFC 2047. */
  function QDecode(s: seq<byte>): seq<byte>
    decreases |s|
  {
    if s == [] then []
    else if s[0] == US then [SP] + QDecode(s[1..])
    else if s[0] == EQ && |s| >= 3 then [HexValue(s[1]) * 16 + HexValue(s[2])] + QDecode(s[3..])
    else [s[0]] + QDecode(s[1..])
  }

  /** Q-decoding recovers every byte the encoder was given. */
  lemma {:induction false} QDecodeEncode(bs: seq<byte>)
    ensures QDecode(QEncode(bs)) == bs
  {
    if bs != [] {
      var c := bs[0];
      var rest := QEncode(bs[1..]);
      QDecodeEncode(bs[1..]);
      assert QEncode(bs) == QByte(c) + rest;
      if c == SP {
      } else if IsVchar(c) && c != EQ && c != QM && c != US {
        assert (QByte(c) + rest)[1..] == rest;
      } else {
        var s := QByte(c) + rest;
        assert s[3..] == rest;
        assert HexValue(HexDigit(c / 16)) * 16 + HexValue(HexDigit(c % 16)) == c;
      }
    }
  }

  /** Encoded text is made of visible characters other than '?', so it can neither end
      an encoded word early nor contain white space. */
  lemma {:induction false} QEncodeSafe(bs: seq<byte>)
    ensures forall i | 0 <= i < |QEncode(bs)| :: IsVchar(QEncode(bs)[i]) && QEncode(bs)[i] != QM
  {
    if bs != [] {
      QEncodeSafe(bs[1..]);
      var q := QByte(bs[0]);
      assert forall i | 0 <= i < |q| :: IsVchar(q[i]) && q[i] != QM;
      var r := QEncode(bs);
      assert r == q + QEncode(bs[1..]);
      assert forall i | |q| <= i < |r| :: r[i] == QEncode(bs[1..])[i - |q|];
    }
  }

  // ---------------------------------------------------------------------------
  // UTF-8 characters

  /** utf8.RuneStart: not a continuation byte (10xxxxxx). */
  predicate RuneStart(b: byte)
  {
    !(0x80 <= b < 0xC0)
  }

  /** The number of continuation bytes from position j on. */
  function ContinuationRun(text: seq<byte>, j: nat): (n: nat)
    ensures j <= |text| ==> j + n <= |text|
    ensures j >= |text| ==> n == 0
    decreases |text| - j
  {
    if j < |text| && !RuneStart(text[j]) then 1 + ContinuationRun(text, j + 1) else 0
  }

  /** The bytes encodeChar consumes at i: one byte, then every continuation byte that
      follows it. */
  function RuneLen(text: seq<byte>, i: nat): (n: nat)
    ensures i < |text| ==> 1 <= n && i + n <= |text|
    ensures i >= |text| ==> n == 0
  {
    if i < |text| then 1 + ContinuationRun(text, i + 1) else 0
  }

  // ---------------------------------------------------------------------------
  // Line folding of printable text

  /** The state of the folding loop: the written lines, the line buffer, usedChars and
      firstWord. */
  datatype Fold = Fold(lines: seq<seq<byte>>, line: seq<byte>, used: int, first: bool)

  function FoldStep(st: Fold, word: seq<byte>): Fold
  {
    var newWord := (if st.first then [] else [SP]) + word;
    if st.used + |st.line| + |newWord| > MaxLineLength && (st.line != [] || st.used != 0) then
      Fold(st.lines + [st.line], (if !st.first then [] else [SP]) + newWord, 0, false)
    else
      Fold(st.lines, st.line + newWord, st.used, false)
  }

  function FoldWords(words: seq<seq<byte>>, st: Fold): Fold
    decreases |words|
  {
    if words == [] then st else FoldStep(FoldWords(words[..|words| - 1], st), words[|words| - 1])
  }

  lemma FoldWordsPrefix(words: seq<seq<byte>>, st: Fold, k: nat)
    requires k < |words|
    ensures FoldWords(words[..k + 1], st) == FoldStep(FoldWords(words[..k], st), words[k])
  {
    assert words[..k + 1][..k] == words[..k];
  }

  /** The lines, each followed by CRLF. */
  function Flatten(lines: seq<seq<byte>>): seq<byte>
    decreases |lines|
  {
    if lines == [] then [] else Flatten(lines[..|lines| - 1]) + lines[|lines| - 1] + CRLF
  }

  lemma FlattenAppend(lines: seq<seq<byte>>, l: seq<byte>)
    ensures Flatten(lines + [l]) == Flatten(lines) + l + CRLF
  {
    assert (lines + [l])[..|lines|] == lines;
  }

  lemma {:induction false} JoinAppend<T>(ws: seq<seq<T>>, w: seq<T>, sep: T)
    requires ws != []
    ensures Join(ws + [w], sep) == Join(ws, sep) + [sep] + w
    decreases |ws|
  {
    if |ws| == 1 {
      assert ws + [w] == [ws[0], w];
      assert [ws[0], w][1..] == [w];
    } else {
      assert (ws + [w])[1..] == ws[1..] + [w];
      JoinAppend(ws[1..], w, sep);
    }
  }

  predicate StartsWith(s: seq<byte>, prefix: seq<byte>)
  {
    |prefix| <= |s| && s[..|prefix|] == prefix
  }

  /** Every line after the first starts with a space. */
  predicate SpaceLed(ls: seq<seq<byte>>)
  {
    forall k | 1 <= k < |ls| :: StartsWith(ls[k], [SP])
  }

  lemma FoldStepConcat(st: Fold, w: seq<byte>)
    requires !st.first && st.used == 0
    ensures var next := FoldStep(st, w);
            && !next.first && next.used == 0
            && Concat(next.lines + [next.line]) == Concat(st.lines + [st.line]) + [SP] + w
  {
    var next := FoldStep(st, w);
    var newWord := [SP] + w;
    if |st.line| + |newWord| > MaxLineLength && st.line != [] {
      assert next.line == newWord;
      assert next.lines + [next.line] == (st.lines + [st.line]) + [newWord];
      ConcatAppend(st.lines + [st.line], newWord);
    } else {
      assert next.lines + [next.line] == st.lines + [st.line + newWord];
      ConcatAppend(st.lines, st.line + newWord);
      ConcatAppend(st.lines, st.line);
    }
  }

  lemma FoldStepSpaceLed(st: Fold, w: seq<byte>)
    requires !st.first && st.used == 0 && SpaceLed(st.lines + [st.line])
    ensures var next := FoldStep(st, w); SpaceLed(next.lines + [next.line])
  {
    var next := FoldStep(st, w);
    var newWord := [SP] + w;
    var ls := st.lines + [st.line];
    var ns := next.lines + [next.line];
    if |st.line| + |newWord| > MaxLineLength && st.line != [] {
      assert next.line == newWord;
      assert ns == ls + [newWord];
      assert newWord[..1] == [SP];
      forall k | 1 <= k < |ns| ensures StartsWith(ns[k], [SP]) {
        if k < |ls| {
          assert ns[k] == ls[k];
        }
      }
    } else {
      assert ns == st.lines + [st.line + newWord];
      forall k | 1 <= k < |ns| ensures StartsWith(ns[k], [SP]) {
        if k < |ns| - 1 {
          assert ns[k] == ls[k];
        } else {
          assert ls[k] == st.line;
          assert (st.line + newWord)[..1] == st.line[..1];
        }
      }
    }
  }

  /** Folding from usedChars 0: the lines concatenate to the words joined by spaces, every
      line after the first starts with a space, and usedChars stays 0. */
  lemma {:induction false} FoldInvariant(words: seq<seq<byte>>)
    ensures var st := FoldWords(words, Fold([], [], 0, true));
            && st.used == 0
            && (st.first <==> words == [])
            && Concat(st.lines + [st.line]) == Join(words, SP)
            && SpaceLed(st.lines + [st.line])
    decreases |words|
  {
    if words != [] {
      var ws := words[..|words| - 1];
      var w := words[|words| - 1];
      FoldInvariant(ws);
      var st := FoldWords(ws, Fold([], [], 0, true));
      assert words == ws + [w];
      if ws == [] {
        assert FoldStep(st, w) == Fold([], w, 0, false);
        assert words[..0] == [];
      } else {
        JoinAppend(ws, w, SP);
        FoldStepConcat(st, w);
        FoldStepSpaceLed(st, w);
      }
    }
  }

  /** On the all-printable path from usedChars 0 the output is the folded lines joined by
      CRLF, the lines concatenate back to the sanitised input, and every line after the
      first (every line that follows a CRLF) starts with a space. */
  lemma PrintableFolding(p: seq<byte>)
    ensures var st := FoldWords(Split(p, SP), Fold([], [], 0, true));
            && Concat(st.lines + [st.line]) == p
            && SpaceLed(st.lines + [st.line])
  {
    FoldInvariant(Split(p, SP));
    JoinSplit(p, SP);
  }

  // ---------------------------------------------------------------------------
  // Encoded words

  /** The state of the encoding loop: the written lines (each already closed by "?="),
      the line buffer, usedChars, maxLineLength and firstLine. */
  datatype QState = QState(lines: seq<seq<byte>>, line: seq<byte>, used: int, max: int, first: bool)

  function QInit(used: int, wordBegin: seq<byte>): QState
  {
    QState([], wordBegin, used, if used == 0 then 75 else MaxLineLength, true)
  }

  function QStep(st: QState, enc: seq<byte>, wordBegin: seq<byte>): QState
  {
    var broke := |st.line| + st.used + |enc| > st.max - |WordEnd|;
    var lines := if broke then st.lines + [st.line + WordEnd] else st.lines;
    var line := (if broke then [SP] + wordBegin else st.line) + enc;
    var first := st.first && !broke;
    if !first then QState(lines, line, 0, MaxLineLength, false)
    else QState(lines, line, st.used, st.max, true)
  }

  /** What encodeChar returns at byte position i: the character there, encoded. */
  function Piece(p: seq<byte>, i: nat): seq<byte>
    requires i < |p|
  {
    QEncode(p[i..i + RuneLen(p, i)])
  }

  /** The encoded characters of p from byte position i on, one per encodeChar call. */
  function Pieces(p: seq<byte>, i: nat): seq<seq<byte>>
    decreases |p| - i
  {
    if i >= |p| then []
    else
      [Piece(p, i)] + Pieces(p, i + RuneLen(p, i))
  }

  /** The encoding loop over a list of encoded characters. */
  function QFold(ps: seq<seq<byte>>, st: QState, wordBegin: seq<byte>): QState
    decreases |ps|
  {
    if ps == [] then st else QFold(ps[1..], QStep(st, ps[0], wordBegin), wordBegin)
  }

  /** The encoding loop from byte position i on. */
  function QRun(p: seq<byte>, i: nat, st: QState, wordBegin: seq<byte>): QState
  {
    QFold(Pieces(p, i), st, wordBegin)
  }

  /** The first line opens with the encoded-word prefix, every later one with a space and
      the prefix; every written line is closed by "?=". */
  predicate Framed(st: QState, wordBegin: seq<byte>)
  {
    && (forall k | 0 <= k < |st.lines| ::
          && StartsWith(st.lines[k], if k == 0 then wordBegin else [SP] + wordBegin)
          && |st.lines[k]| >= 2 && st.lines[k][|st.lines[k]| - 2..] == WordEnd)
    && StartsWith(st.line, if st.lines == [] then wordBegin else [SP] + wordBegin)
  }

  lemma StartsWithAppend(s: seq<byte>, t: seq<byte>, prefix: seq<byte>)
    requires StartsWith(s, prefix)
    ensures StartsWith(s + t, prefix)
  {
    assert (s + t)[..|prefix|] == s[..|prefix|];
  }

  lemma QStepFramed(st: QState, enc: seq<byte>, wordBegin: seq<byte>)
    requires Framed(st, wordBegin)
    ensures Framed(QStep(st, enc, wordBegin), wordBegin)
  {
    var next := QStep(st, enc, wordBegin);
    var prefix := if st.lines == [] then wordBegin else [SP] + wordBegin;
    var cont := [SP] + wordBegin;
    if |st.line| + st.used + |enc| > st.max - |WordEnd| {
      var closed := st.line + WordEnd;
      StartsWithAppend(st.line, WordEnd, prefix);
      assert closed[|closed| - 2..] == WordEnd;
      assert cont[..|cont|] == cont;
      StartsWithAppend(cont, enc, cont);
      assert next.lines == st.lines + [closed];
      assert next.line == cont + enc;
      forall k | 0 <= k < |next.lines|
        ensures && StartsWith(next.lines[k], if k == 0 then wordBegin else cont)
                && |next.lines[k]| >= 2 && next.lines[k][|next.lines[k]| - 2..] == WordEnd
      {
        if k < |st.lines| {
          assert next.lines[k] == st.lines[k];
        } else {
          assert next.lines[k] == closed;
        }
      }
    } else {
      StartsWithAppend(st.line, enc, prefix);
      assert next.lines == st.lines;
      assert next.line == st.line + enc;
    }
  }

  lemma {:induction false} QFoldFramed(ps: seq<seq<byte>>, st: QState, wordBegin: seq<byte>)
    requires Framed(st, wordBegin)
    ensures Framed(QFold(ps, st, wordBegin), wordBegin)
    decreases |ps|
  {
    if ps != [] {
      QStepFramed(st, ps[0], wordBegin);
      QFoldFramed(ps[1..], QStep(st, ps[0], wordBegin), wordBegin);
    }
  }

  /** Every character of p, encoded, fits on a fresh continuation line. */
  predicate FitsFresh(p: seq<byte>, wordBegin: seq<byte>)
  {
    forall i | 0 <= i < |p| :: 1 + |wordBegin| + 3 * RuneLen(p, i) <= MaxLineLength - |WordEnd|
  }

  /** The line-length bookkeeping from usedChars 0: the first line may take 75 bytes with
      its "?=", every later line 76. */
  predicate Bounded(st: QState)
  {
    && st.used == 0
    && (st.first ==> st.max == 75 && st.lines == [])
    && (!st.first ==> st.max == MaxLineLength && st.lines != [])
    && |st.line| <= st.max - |WordEnd|
    && forall k | 0 <= k < |st.lines| :: |st.lines[k]| <= if k == 0 then 75 else MaxLineLength
  }

  lemma QStepBounded(st: QState, enc: seq<byte>, wordBegin: seq<byte>)
    requires Bounded(st)
    requires 1 + |wordBegin| + |enc| <= MaxLineLength - |WordEnd|
    ensures Bounded(QStep(st, enc, wordBegin))
  {
  }

  /** Every encoded character fits on a fresh continuation line. */
  predicate PiecesFit(ps: seq<seq<byte>>, wordBegin: seq<byte>)
    decreases |ps|
  {
    ps == [] || (1 + |wordBegin| + |ps[0]| <= MaxLineLength - |WordEnd| && PiecesFit(ps[1..], wordBegin))
  }

  lemma {:induction false} FitsFreshPieces(p: seq<byte>, i: nat, wordBegin: seq<byte>)
    requires FitsFresh(p, wordBegin)
    ensures PiecesFit(Pieces(p, i), wordBegin)
    decreases |p| - i
  {
    if i < |p| {
      var n := RuneLen(p, i);
      var enc := Piece(p, i);
      var ps := Pieces(p, i);
      FitsFreshPieces(p, i + n, wordBegin);
      assert ps == [enc] + Pieces(p, i + n);
      assert ps[0] == enc && ps[1..] == Pieces(p, i + n);
      assert |enc| <= 3 * n;
      assert 1 + |wordBegin| + 3 * RuneLen(p, i) <= MaxLineLength - |WordEnd|;
    }
  }

  lemma {:induction false} QFoldBounded(ps: seq<seq<byte>>, st: QState, wordBegin: seq<byte>)
    requires Bounded(st) && PiecesFit(ps, wordBegin)
    ensures Bounded(QFold(ps, st, wordBegin))
    decreases |ps|
  {
    if ps != [] {
      QStepBounded(st, ps[0], wordBegin);
      QFoldBounded(ps[1..], QStep(st, ps[0], wordBegin), wordBegin);
    }
  }

  /** The lines of the encoded path as they appear in the output. */
  function OutputLines(st: QState): seq<seq<byte>>
  {
    st.lines + [st.line + WordEnd]
  }

  /** A framed state's output lines are all framed: each opens with the prefix (the first
      without a space) and closes with "?=". */
  lemma OutputFramed(st: QState, wordBegin: seq<byte>)
    requires Framed(st, wordBegin)
    ensures var ls := OutputLines(st);
            forall k | 0 <= k < |ls| ::
              && StartsWith(ls[k], if k == 0 then wordBegin else [SP] + wordBegin)
              && |ls[k]| >= 2 && ls[k][|ls[k]| - 2..] == WordEnd
  {
    var ls := OutputLines(st);
    var last := st.line + WordEnd;
    assert ls[|st.lines|] == last;
    assert last[..|st.line|] == st.line;
    assert last[|last| - 2..] == WordEnd;
  }

  /** A bounded state's output lines respect the 75/76 byte limits. */
  lemma OutputBounded(st: QState)
    requires Bounded(st)
    ensures var ls := OutputLines(st);
            forall k | 0 <= k < |ls| :: |ls[k]| <= if k == 0 then 75 else MaxLineLength
  {
    var ls := OutputLines(st);
    assert ls[|st.lines|] == st.line + WordEnd;
  }

  /** On the encoded path the output lines are framed as encoded words, and from usedChars
      0 (with every encoded character fitting on a fresh line) the first line is at most
      75 bytes and every continuation line at most 76. */
  lemma EncodedLines(p: seq<byte>, used: int, wordBegin: seq<byte>)
    ensures var ls := OutputLines(QRun(p, 0, QInit(used, wordBegin), wordBegin));
            forall k | 0 <= k < |ls| ::
              && StartsWith(ls[k], if k == 0 then wordBegin else [SP] + wordBegin)
              && |ls[k]| >= 2 && ls[k][|ls[k]| - 2..] == WordEnd
    ensures var ls := OutputLines(QRun(p, 0, QInit(used, wordBegin), wordBegin));
            used == 0 && p != [] && FitsFresh(p, wordBegin) ==>
              forall k | 0 <= k < |ls| :: |ls[k]| <= if k == 0 then 75 else MaxLineLength
  {
    var init := QInit(used, wordBegin);
    var ps := Pieces(p, 0);
    assert wordBegin[..|wordBegin|] == wordBegin;
    assert Framed(init, wordBegin);
    QFoldFramed(ps, init, wordBegin);
    var st := QFold(ps, init, wordBegin);
    OutputFramed(st, wordBegin);
    if used == 0 && p != [] && FitsFresh(p, wordBegin) {
      FitsFreshPieces(p, 0, wordBegin);
      QFoldBounded(ps, init, wordBegin);
      OutputBounded(st);
    }
  }

  /** The whole output of encode for a sanitised input, with the new usedChars. */
  function EncodeOutput(p: seq<byte>, used: int, wordBegin: seq<byte>): (seq<byte>, int)
  {
    if AllPrintable(p) then
      var st := FoldWords(Split(p, SP), Fold([], [], used, true));
      (Flatten(st.lines) + st.line, st.used)
    else
      var st := QRun(p, 0, QInit(used, wordBegin), wordBegin);
      (Flatten(st.lines) + st.line + WordEnd, st.used)
  }

  /** On the encoded path the output opens with the encoded-word prefix and closes with
      "?=". */
  lemma EncodedFraming(p: seq<byte>, used: int, wordBegin: seq<byte>)
    requires !AllPrintable(p)
    ensures StartsWith(EncodeOutput(p, used, wordBegin).0, wordBegin)
    ensures var out := EncodeOutput(p, used, wordBegin).0;
            |out| >= 2 && out[|out| - 2..] == WordEnd
  {
    var init := QInit(used, wordBegin);
    assert wordBegin[..|wordBegin|] == wordBegin;
    QFoldFramed(Pieces(p, 0), init, wordBegin);
    var st := QRun(p, 0, init, wordBegin);
    var out := Flatten(st.lines) + st.line + WordEnd;
    assert out[|out| - 2..] == WordEnd;
    if st.lines == [] {
      assert out[..|wordBegin|] == st.line[..|wordBegin|];
    } else {
      FlattenFirst(st.lines);
      assert out[..|wordBegin|] == st.lines[0][..|wordBegin|];
    }
  }

  /** The scan at the head of encode: true until a byte that is neither visible nor
      white space is met. */
  method CheckPrintable(p: seq<byte>) returns (allPrintable: bool)
    ensures allPrintable == AllPrintable(p)
  {
    allPrintable := true;
    for i := 0 to |p|
      invariant allPrintable
      invariant forall k | 0 <= k < i :: IsVchar(p[k]) || IsWsp(p[k])
    {
      if !IsVchar(p[i]) && !IsWsp(p[i]) {
        allPrintable := false;
        break;
      }
    }
  }

  /** The folding loop of encode's all-printable branch, on the sanitised bytes p and the
      counter usedChars on entry; it returns the bytes written and the counter. */
  method FoldPrintableFrom(p: seq<byte>, usedChars: int) returns (output: seq<byte>, usedOut: int)
    ensures var st := FoldWords(Split(p, SP), Fold([], [], usedChars, true));
            output == Flatten(st.lines) + st.line && usedOut == st.used
  {
    var used := usedChars;
    output := [];
    var words := Split(p, SP);
    var lineBuffer: seq<byte> := [];
    var firstWord := true;
    ghost var lines: seq<seq<byte>> := [];
    for k := 0 to |words|
      invariant Fold(lines, lineBuffer, used, firstWord)
                == FoldWords(words[..k], Fold([], [], usedChars, true))
      invariant output == Flatten(lines)
    {
      FoldWordsPrefix(words, Fold([], [], usedChars, true), k);
      lines, output, lineBuffer, used, firstWord :=
        AddWord(lines, output, lineBuffer, used, firstWord, words[k]);
    }
    assert words[..|words|] == words;
    output := output + lineBuffer;
    usedOut := used;
  }

  /** One round of the folding loop: break the line before the word when it would
      overflow, then append the word, preceded by a space unless it is the first. */
  method AddWord(ghost lines: seq<seq<byte>>, output: seq<byte>, lineBuffer: seq<byte>,
                 used: int, firstWord: bool, word: seq<byte>)
    returns (ghost lines': seq<seq<byte>>, output': seq<byte>, lineBuffer': seq<byte>,
             used': int, firstWord': bool)
    requires output == Flatten(lines)
    ensures Fold(lines', lineBuffer', used', firstWord')
            == FoldStep(Fold(lines, lineBuffer, used, firstWord), word)
    ensures output' == Flatten(lines')
  {
    var maxLineLength := MaxLineLength;
    lines', output', lineBuffer', used' := lines, output, lineBuffer, used;
    var newWord: seq<byte> := [];
    if !firstWord {
      newWord := newWord + [SP];
    }
    newWord := newWord + word;
    if used' + |lineBuffer'| + |newWord| > maxLineLength && (lineBuffer' != [] || used' != 0) {
      FlattenAppend(lines', lineBuffer');
      output' := output' + lineBuffer' + CRLF;
      lines' := lines' + [lineBuffer'];
      if !firstWord {
        lineBuffer' := [];
      } else {
        lineBuffer' := [SP];
      }
      used' := 0;
    }
    lineBuffer' := lineBuffer' + newWord;
    firstWord' := false;
  }

  /** The switch in encodeChar's loop: one byte, encoded. */
  method EncodeByte(c: byte) returns (e: seq<byte>)
    ensures e == QByte(c)
  {
    if c == SP {
      e := [US];
    } else if IsVchar(c) && c != EQ && c != QM && c != US {
      e := [c];
    } else {
      e := [EQ, HexDigit(c / 16), HexDigit(c % 16)];
    }
  }

  /** encodeChar (a receiver method that reads no encoder state): one lead byte and the
      continuation bytes that follow it, encoded. */
  method EncodeChar(text: seq<byte>, start: nat) returns (encoded: seq<byte>, runeLength: nat)
    ensures runeLength == RuneLen(text, start)
    ensures start < |text| ==> runeLength >= 1
    ensures start < |text| ==> encoded == Piece(text, start)
    ensures start >= |text| ==> encoded == []
  {
    var started := false;
    var i := start;
    encoded := [];
    runeLength := 0;
    while i < |text| && (!RuneStart(text[i]) || !started)
      invariant i == start + runeLength
      invariant started <==> runeLength > 0
      invariant started ==> i <= |text| && encoded == QEncode(text[start..i])
      invariant started ==> RuneLen(text, start) == runeLength + ContinuationRun(text, i)
      invariant !started ==> encoded == []
      decreases |text| - i
    {
      var c := text[i];
      EncodeCharStep(text, start, i, runeLength);
      var e := EncodeByte(c);
      encoded := encoded + e;
      runeLength := runeLength + 1;
      i := i + 1;
      started := true;
    }
  }

  /** What one round of encodeChar's loop adds: the byte's encoding, and one byte of the
      character's length. */
  lemma EncodeCharStep(text: seq<byte>, start: nat, i: nat, runeLength: nat)
    requires i == start + runeLength && i < |text|
    requires runeLength > 0 ==> !RuneStart(text[i])
    requires runeLength > 0 ==> RuneLen(text, start) == runeLength + ContinuationRun(text, i)
    ensures QEncode(text[start..i + 1]) == QEncode(text[start..i]) + QByte(text[i])
    ensures RuneLen(text, start) == runeLength + 1 + ContinuationRun(text, i + 1)
  {
    var c := text[i];
    assert text[start..i + 1] == text[start..i] + [c];
    QEncodeConcat(text[start..i], [c]);
    assert QEncode([c]) == QByte(c) by {
      assert [c][1..] == [];
    }
  }

  /** One round of the encoding loop: the run from position i is the run from the next
      character on, after the step for the character encodeChar returns at i. */
  lemma QRunAdvance(p: seq<byte>, i: nat, j: nat, st: QState, wordBegin: seq<byte>)
    requires i < |p| && j == i + RuneLen(p, i)
    ensures QFold(Pieces(p, i), st, wordBegin) == QFold(Pieces(p, j), QStep(st, Piece(p, i), wordBegin), wordBegin)
  {
    var ps := Pieces(p, i);
    assert ps[1..] == Pieces(p, j);
  }

  /** The encoding loop of encode, on the sanitised bytes p, the counter usedChars on
      entry and the encoded-word prefix; it returns the bytes written and the counter. */
  method EncodeWordsFrom(p: seq<byte>, usedChars: int, wordBegin: seq<byte>)
    returns (output: seq<byte>, usedOut: int)
    ensures var st := QRun(p, 0, QInit(usedChars, wordBegin), wordBegin);
            output == Flatten(st.lines) + st.line + WordEnd && usedOut == st.used
  {
    ghost var final := QRun(p, 0, QInit(usedChars, wordBegin), wordBegin);
    var used := usedChars;
    var maxLineLength := if used == 0 then 75 else MaxLineLength;
    output := [];
    var firstLine := true;
    var lineBuffer := wordBegin;
    ghost var lines: seq<seq<byte>> := [];
    ghost var st := QInit(usedChars, wordBegin);
    var i: nat := 0;
    while i < |p|
      invariant i <= |p|
      invariant QFold(Pieces(p, i), st, wordBegin) == final
      invariant st == QState(lines, lineBuffer, used, maxLineLength, firstLine)
      invariant output == Flatten(lines)
      decreases |p| - i
    {
      var encodedChar, runeLength := EncodeChar(p, i);
      var next := i + runeLength;
      QRunAdvance(p, i, next, st, wordBegin);
      lines, output, lineBuffer, used, maxLineLength, firstLine :=
        AddEncodedChar(lines, output, lineBuffer, used, maxLineLength, firstLine, encodedChar, wordBegin);
      st := QStep(st, encodedChar, wordBegin);
      i := next;
    }
    output := output + (lineBuffer + WordEnd);
    usedOut := used;
  }

  /** One round of the encoding loop after encodeChar: close the line with "?=" and open
      a new one when the character would overflow it, append the character, and reset
      usedChars and maxLineLength once past the first line. */
  method AddEncodedChar(ghost lines: seq<seq<byte>>, output: seq<byte>, lineBuffer: seq<byte>,
                        used: int, maxLineLength: int, firstLine: bool, encodedChar: seq<byte>,
                        wordBegin: seq<byte>)
    returns (ghost lines': seq<seq<byte>>, output': seq<byte>, lineBuffer': seq<byte>,
             used': int, maxLineLength': int, firstLine': bool)
    requires output == Flatten(lines)
    ensures QState(lines', lineBuffer', used', maxLineLength', firstLine')
            == QStep(QState(lines, lineBuffer, used, maxLineLength, firstLine), encodedChar, wordBegin)
    ensures output' == Flatten(lines')
  {
    lines', output', lineBuffer', used', maxLineLength', firstLine' :=
      lines, output, lineBuffer, used, maxLineLength, firstLine;
    if |lineBuffer'| + used' + |encodedChar| > maxLineLength' - |WordEnd| {
      var closed := lineBuffer' + WordEnd;
      FlattenAppend(lines', closed);
      output' := output' + closed + CRLF;
      lines' := lines' + [closed];
      lineBuffer' := [SP] + wordBegin;
      firstLine' := false;
    }
    lineBuffer' := lineBuffer' + encodedChar;
    if !firstLine' {
      used' := 0;
      maxLineLength' := MaxLineLength;
    }
  }

  /** The flattened lines begin with the first line. */
  lemma {:induction false} FlattenFirst(lines: seq<seq<byte>>)
    requires lines != []
    ensures StartsWith(Flatten(lines), lines[0])
    decreases |lines|
  {
    if |lines| > 1 {
      var init := lines[..|lines| - 1];
      FlattenFirst(init);
      var f := Flatten(init);
      assert Flatten(lines) == f + lines[|lines| - 1] + CRLF;
      assert Flatten(lines)[..|lines[0]|] == f[..|lines[0]|];
    }
  }

  class Encoder {
    const charset: string
    var usedChars: int
    /** Everything flushed to the underlying writer. */
    var written: seq<byte>

    /** newEncoder: the character set name upper-cased. */
    constructor (c: string, u: int)
      ensures charset == ToUpper(c) && usedChars == u && written == []
    {
      charset := ToUpper(c);
      usedChars := u;
      written := [];
    }

    /** "=?" + charset + "?Q?". */
    function WordBegin(): seq<byte>
    {
      [EQ, QM] + Utf8(charset) + [QM, UpperQ, QM]
    }

    /** The all-printable branch of encode: split at spaces and fold into lines. */
    method FoldPrintable(p: seq<byte>) returns (output: seq<byte>)
      modifies this`usedChars
      ensures var st := FoldWords(Split(p, SP), Fold([], [], old(usedChars), true));
              output == Flatten(st.lines) + st.line && usedChars == st.used
    {
      var used;
      output, used := FoldPrintableFrom(p, usedChars);
      usedChars := used;
    }

    /** The other branch of encode: encoded words, folded before they overflow. */
    method EncodeWords(p: seq<byte>) returns (output: seq<byte>)
      modifies this`usedChars
      ensures var st := QRun(p, 0, QInit(old(usedChars), WordBegin()), WordBegin());
              output == Flatten(st.lines) + st.line + WordEnd && usedChars == st.used
    {
      var used;
      output, used := EncodeWordsFrom(p, usedChars, WordBegin());
      usedChars := used;
    }

    /** encode: sanitise, then either fold the printable text or write it as encoded
        words; the bytes produced are flushed and counted, and the error is always nil. */
    method Encode(text: seq<byte>) returns (n: int, err: Option<string>)
      modifies this`usedChars, this`written
      ensures var r := EncodeOutput(SecureHeader(text), old(usedChars), WordBegin());
              && written == old(written) + r.0
              && usedChars == r.1
              && n == |r.0|
      ensures err == None
    {
      var output: seq<byte>;
      var p := SecureHeader(text);
      var allPrintable := CheckPrintable(p);

      if allPrintable {
        output := FoldPrintable(p);
      } else {
        output := EncodeWords(p);
      }

      written := written + output;
      n := |output|;
      err := None;
    }
  }
}
