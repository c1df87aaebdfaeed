/** The text of a dump: one line per packet, hexadecimal, and the reader that takes it apart again. */
module DumpText {
  import opened Words
  import opened HeaderParser
  import opened Samples

  const META_WORDS: nat := 10

  /** A dumped packet: its header and the 32-bit words written after it. */
  datatype Record = Record(header: Hrzr, words: seq<Word32>)

  /** The number of words the dump writes after a header. */
  function WordCount(h: Hrzr): nat {
    match GetControlFromHeader(h)
    case Known(Data) => SAMPLES_PER_PACKET
    case Known(DataEndOfBurst) => SAMPLES_PER_PACKET
    case Known(Metadata) => META_WORDS
    case _ => 0
  }

  const DIGITS: seq<char> := "0123456789abcdef"

  function DigitValue(c: char): (d: int)
    ensures 0 <= d < 16
  {
    if '0' <= c <= '9' then (c - '0') as int
    else if 'a' <= c <= 'f' then 10 + (c - 'a') as int
    else 0
  }

  lemma DigitRoundTrip(d: int)
    requires 0 <= d < 16
    ensures DigitValue(DIGITS[d]) == d
  {
  }

  function Pow16(width: nat): nat {
    if width == 0 then 1 else 16 * Pow16(width - 1)
  }

  /** `hex << setfill('0') << setw(width)` of a value that fits. */
  function Hex(n: nat, width: nat): (text: string)
    ensures |text| == width
  {
    if width == 0 then "" else Hex(n / 16, width - 1) + [DIGITS[n % 16]]
  }

  function Value(text: string): nat
    decreases |text|
  {
    if text == "" then 0 else 16 * Value(text[..|text| - 1]) + DigitValue(text[|text| - 1])
  }

  lemma {:induction false} HexRoundTrip(n: nat, width: nat)
    requires n < Pow16(width)
    ensures Value(Hex(n, width)) == n
  {
    if width == 0 {
    } else {
      HexRoundTrip(n / 16, width - 1);
      DigitRoundTrip(n % 16);
      assert Hex(n, width)[..width - 1] == Hex(n / 16, width - 1);
    }
  }

  /** The k-th digit from the right, in lower case. */
  lemma {:induction false} DigitAt(n: nat, width: nat, k: nat)
    requires k < width
    ensures Pow16(k) > 0
    ensures Hex(n, width)[width - 1 - k] == "0123456789abcdef"[n / Pow16(k) % 16]
    decreases width
  {
    if k == 0 {
    } else {
      DigitAt(n / 16, width - 1, k - 1);
      Shifted(n, Pow16(k - 1));
    }
  }

  lemma Shifted(n: nat, a: nat)
    requires a > 0
    ensures n / 16 / a == n / (16 * a)
  {
    var q, r := n / 16, n % 16;
    var x, y := q / a, q % a;
    assert n == 16 * (a * x + y) + r == (16 * a) * x + (16 * y + r);
    Quotient(n, 16 * a, x, 16 * y + r);
  }

  lemma Quotient(n: nat, b: nat, x: nat, r: nat)
    requires n == b * x + r && r < b
    ensures n / b == x
  {
    var q, m := n / b, n % b;
    assert n == b * q + m;
    Difference(b, q, x);
    MultipleAtLeast(b, q - x);
  }

  lemma Difference(b: nat, q: int, x: int)
    ensures b * (q - x) == b * q - b * x
  {
  }

  lemma MultipleAtLeast(b: nat, d: int)
    ensures d > 0 ==> b * d >= b
    ensures d < 0 ==> b * d + b <= 0
  {
    if d > 0 {
      assert b * (d - 1) >= 0;
    } else if d < 0 {
      assert b * (-d - 1) >= 0;
    }
  }

  lemma Widths()
    ensures Pow16(2) == 0x100 && Pow16(8) == 0x1_0000_0000 && Pow16(12) == 0x1_0000_0000_0000
  {
    assert Pow16(4) == 0x1_0000;
    assert Pow16(8) == 0x1_0000_0000;
  }

  /** The sixteen digits of the 64-bit header word. */
  function HeaderText(h: Hrzr): (text: string)
    ensures |text| == 16
  {
    Hex(h.rest, 12) + Hex(h.b1, 2) + Hex(h.b0, 2)
  }

  lemma HexStep(n: nat, width: nat)
    ensures Hex(n, width + 1) == Hex(n / 16, width) + [DIGITS[n % 16]]
  {
  }

  lemma HexSplit(q: nat, r: Byte, width: nat)
    ensures Hex(0x100 * q + r, width + 2) == Hex(q, width) + Hex(r, 2)
  {
    hide Hex;
    var n, h, l := 0x100 * q + r, r / 16, r % 16;
    DivBySixteen(n, 16 * q + h, l);
    DivBySixteen(16 * q + h, q, h);
    DivBySixteen(h, 0, h);
    HexStep(n, width + 1);
    HexStep(16 * q + h, width);
    HexStep(r, 1);
    HexStep(h, 0);
    NoDigits(0);
  }

  lemma DivBySixteen(n: nat, q: nat, r: nat)
    requires n == 16 * q + r && r < 16
    ensures n / 16 == q && n % 16 == r
  {
  }

  lemma NoDigits(n: nat)
    ensures Hex(n, 0) == ""
  {
  }

  /** It is the hexadecimal form of the whole word, most significant digit first. */
  lemma HeaderTextIsHex(h: Hrzr)
    ensures HeaderText(h) == Hex(h.b0 + 0x100 * h.b1 + 0x1_0000 * h.rest, 16)
  {
    hide Hex;
    HexSplit(0x100 * h.rest + h.b1, h.b0, 14);
    HexSplit(h.rest, h.b1, 12);
  }

  function HeaderOf(text: string): Hrzr
    requires |text| == 16
  {
    Hrzr(Value(text[14..]) % 0x100, Value(text[12..14]) % 0x100, Value(text[..12]) % 0x1_0000_0000_0000)
  }

  lemma HeaderRoundTrip(h: Hrzr)
    ensures HeaderOf(HeaderText(h)) == h
  {
    hide Hex, Value, Pow16;
    var text := HeaderText(h);
    assert text[..12] == Hex(h.rest, 12) && text[12..14] == Hex(h.b1, 2) && text[14..] == Hex(h.b0, 2);
    Widths();
    HexRoundTrip(h.rest, 12);
    HexRoundTrip(h.b1, 2);
    HexRoundTrip(h.b0, 2);
  }

  function WordsText(ws: seq<Word32>): (text: string)
    ensures |text| == 8 * |ws|
    decreases |ws|
  {
    if ws == [] then "" else WordsText(ws[..|ws| - 1]) + Hex(ws[|ws| - 1], 8)
  }

  lemma WordsTextSnoc(ws: seq<Word32>, w: Word32)
    ensures WordsText(ws + [w]) == WordsText(ws) + Hex(w, 8)
  {
    assert (ws + [w])[..|ws|] == ws;
  }

  function WordsOfText(text: string): seq<Word32>
    decreases |text|
  {
    if |text| < 8 then []
    else
      var n := |text| - 8;
      WordsOfText(text[..n]) + [Value(text[n..]) % 0x1_0000_0000]
  }

  lemma {:induction false} WordsRoundTrip(ws: seq<Word32>)
    ensures WordsOfText(WordsText(ws)) == ws
    decreases |ws|
  {
    hide Hex, Value, Pow16;
    if ws == [] {
    } else {
      var n := |ws| - 1;
      var text := WordsText(ws);
      WordsRoundTrip(ws[..n]);
      assert text[..8 * n] == WordsText(ws[..n]) && text[8 * n..] == Hex(ws[n], 8);
      Widths();
      HexRoundTrip(ws[n], 8);
    }
  }

  function RecordText(r: Record): string {
    HeaderText(r.header) + WordsText(r.words) + "\n"
  }

  lemma {:induction false} WordAt(ws: seq<Word32>, i: nat)
    requires i < |ws|
    ensures WordsText(ws)[8 * i..8 * i + 8] == Hex(ws[i], 8)
    decreases |ws|
  {
    hide Hex;
    var n := |ws| - 1;
    var text := WordsText(ws);
    assert text[..8 * n] == WordsText(ws[..n]) && text[8 * n..] == Hex(ws[n], 8);
    if i == n {
    } else {
      WordAt(ws[..n], i);
      assert text[8 * i..8 * i + 8] == text[..8 * n][8 * i..8 * i + 8];
    }
  }

  /** A line: the sixteen digits of the header word, eight for every word in order, the line end. */
  lemma LineOf(r: Record, i: nat)
    ensures var text := RecordText(r);
      && |text| == 16 + 8 * |r.words| + 1
      && text[..16] == Hex(r.header.b0 + 0x100 * r.header.b1 + 0x1_0000 * r.header.rest, 16)
      && (i < |r.words| ==> text[16 + 8 * i..24 + 8 * i] == Hex(r.words[i], 8))
      && text[|text| - 1] == '\n'
  {
    hide Hex, HeaderText, WordsText;
    var text := RecordText(r);
    HeaderTextIsHex(r.header);
    assert text[..16] == HeaderText(r.header);
    if i < |r.words| {
      WordAt(r.words, i);
      assert text[16 + 8 * i..24 + 8 * i] == WordsText(r.words)[8 * i..8 * i + 8];
    }
  }

  /** The text of a list of records, last record outermost. */
  function Render(rs: seq<Record>): string
    decreases |rs|
  {
    if rs == [] then "" else Render(rs[..|rs| - 1]) + RecordText(rs[|rs| - 1])
  }

  lemma RenderSnoc(rs: seq<Record>, r: Record)
    ensures Render(rs + [r]) == Render(rs) + RecordText(r)
  {
    assert (rs + [r])[..|rs|] == rs;
  }

  lemma {:induction false} RenderConcat(a: seq<Record>, b: seq<Record>)
    ensures Render(a + b) == Render(a) + Render(b)
    decreases |b|
  {
    hide RecordText;
    if b == [] {
      assert a + b == a;
    } else {
      var n := |b| - 1;
      RenderConcat(a, b[..n]);
      assert (a + b)[..|a| + n] == a + b[..n];
    }
  }

  datatype Reading = Records(records: seq<Record>) | Malformed

  /** Takes sixteen digits, decodes the control field, takes as many words as it says and the line end, and goes on. */
  function ReadBack(text: string): Reading
    decreases |text|
  {
    if text == "" then Records([])
    else if |text| < 17 then Malformed
    else
      var h := HeaderOf(text[..16]);
      var end := 16 + 8 * WordCount(h);
      if |text| <= end || text[end] != '\n' then Malformed
      else
        match ReadBack(text[end + 1..])
        case Malformed => Malformed
        case Records(rs) => Records([Record(h, WordsOfText(text[16..end]))] + rs)
  }

  /** Every record carries the number of words its own header asks for. */
  predicate Sized(rs: seq<Record>) {
    forall k :: 0 <= k < |rs| ==> |rs[k].words| == WordCount(rs[k].header)
  }

  lemma ReadBackOne(r: Record, more: string)
    requires |r.words| == WordCount(r.header)
    ensures ReadBack(RecordText(r) + more) ==
      match ReadBack(more)
      case Malformed => Malformed
      case Records(rs) => Records([r] + rs)
  {
    var text := RecordText(r) + more;
    var end := 16 + 8 * |r.words|;
    assert text[..16] == HeaderText(r.header);
    assert text[16..end] == WordsText(r.words);
    assert text[end] == '\n' && text[end + 1..] == more;
    HeaderRoundTrip(r.header);
    WordsRoundTrip(r.words);
  }

  /** The dump text is uniquely decodable. */
  lemma {:induction false} ReadBackRender(rs: seq<Record>)
    requires Sized(rs)
    ensures ReadBack(Render(rs)) == Records(rs)
    decreases |rs|
  {
    if rs == [] {
    } else {
      var r, rest := rs[0], rs[1..];
      ReadBackRender(rest);
      RenderConcat([r], rest);
      assert [r] + rest == rs;
      assert [r][..0] == [];
      assert Render([r]) == RecordText(r);
      ReadBackOne(r, Render(rest));
    }
  }

  /** Two lists of records with the same text are the same list. */
  lemma RenderInjective(rs: seq<Record>, ss: seq<Record>)
    requires Sized(rs) && Sized(ss) && Render(rs) == Render(ss)
    ensures rs == ss
  {
    ReadBackRender(rs);
    ReadBackRender(ss);
  }
}
