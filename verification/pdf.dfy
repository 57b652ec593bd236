/** The dependency-free pay-stub PDF writer of `app/services/pdf.py`: the
    string escape for PDF literal strings and the single-page document
    serialiser, whose cross-reference table records the byte offset of each
    object in 20-byte entries as section 7.5.4 of ISO 32000-1 lays out. */
module PdfWriter {
  import Text

  newtype byte = x: int | 0 <= x < 256

  type Bytes = seq<byte>

  // ---------------------------------------------------------------------
  // Latin-1
  // ---------------------------------------------------------------------

  /** `str.encode("latin-1", errors="replace")` on one character: its code
      point when below 256, otherwise `?`. */
  function Latin1(c: char): (b: byte)
    ensures c as int < 256 ==> b as int == c as int
    ensures c as int >= 256 ==> b == '?' as int as byte
  {
    if c as int < 256 then (c as int) as byte else 63
  }

  function Encode(s: string): (b: Bytes)
    ensures |b| == |s|
    ensures forall i :: 0 <= i < |s| ==> b[i] == Latin1(s[i])
  {
    seq(|s|, i requires 0 <= i < |s| => Latin1(s[i]))
  }

  /** `bytes.decode("latin-1")`. */
  function Decode(b: Bytes): (s: string)
    ensures |s| == |b|
  {
    seq(|b|, i requires 0 <= i < |b| => (b[i] as int) as char)
  }

  predicate IsLatin1(s: string) {
    forall i :: 0 <= i < |s| ==> s[i] as int < 256
  }

  /** Latin-1 text survives the encoding unchanged. */
  lemma DecodeEncode(s: string)
    requires IsLatin1(s)
    ensures Decode(Encode(s)) == s
  {
  }

  lemma EncodeAppend(a: string, b: string)
    ensures Encode(a + b) == Encode(a) + Encode(b)
  {
  }

  // ---------------------------------------------------------------------
  // _escape
  // ---------------------------------------------------------------------

  /** `s.replace(c, r)` for a one-character pattern. */
  function ReplaceChar(s: string, c: char, r: string): string {
    if |s| == 0 then "" else (if s[0] == c then r else [s[0]]) + ReplaceChar(s[1..], c, r)
  }

  lemma {:induction false} ReplaceCharAppend(a: string, b: string, c: char, r: string)
    ensures ReplaceChar(a + b, c, r) == ReplaceChar(a, c, r) + ReplaceChar(b, c, r)
    decreases |a|
  {
    if |a| == 0 {
      assert a + b == b;
    } else {
      assert (a + b)[0] == a[0];
      assert (a + b)[1..] == a[1..] + b;
      ReplaceCharAppend(a[1..], b, c, r);
    }
  }

  /** The body of `_escape(value)`: backslashes doubled first, then both
      parentheses escaped, as three successive replacements. */
  function Replacements(value: string): string {
    ReplaceChar(ReplaceChar(ReplaceChar(value, '\\', "\\\\"), '(', "\\("), ')', "\\)")
  }

  /** `_escape(value)`: every special character gets one backslash in front
      of it, so a reader of the literal string gets the text back. */
  function Escape(value: string): (r: string)
    ensures r == EscapeEach(value)
    ensures Unescape(r) == value
  {
    EscapeIsPerCharacter(value);
    UnescapeEscapeEach(value);
    Replacements(value)
  }

  /** The characters a PDF literal string must escape. */
  predicate Special(c: char) {
    c == '\\' || c == '(' || c == ')'
  }

  /** The escape of one character: a backslash before it when it is special. */
  function EscapeChar(c: char): (r: string)
    ensures |r| == if Special(c) then 2 else 1
    ensures r[|r| - 1] == c
  {
    if Special(c) then ['\\', c] else [c]
  }

  /** The escape as one left-to-right pass over the characters. */
  function EscapeEach(s: string): string {
    if |s| == 0 then "" else EscapeChar(s[0]) + EscapeEach(s[1..])
  }

  /** The three replacements add up to the one-pass escape: doubling the
      backslashes first keeps the later ones from being doubled again. */
  lemma {:induction false} EscapeIsPerCharacter(s: string)
    ensures Replacements(s) == EscapeEach(s)
    decreases |s|
  {
    if |s| > 0 {
      var c := s[0];
      assert s == [c] + s[1..];
      var p1 := ReplaceChar([c], '\\', "\\\\");
      var p2 := ReplaceChar(p1, '(', "\\(");
      ReplaceCharAppend([c], s[1..], '\\', "\\\\");
      ReplaceCharAppend(p1, ReplaceChar(s[1..], '\\', "\\\\"), '(', "\\(");
      ReplaceCharAppend(p2, ReplaceChar(ReplaceChar(s[1..], '\\', "\\\\"), '(', "\\("), ')', "\\)");
      assert ReplaceChar(p2, ')', "\\)") == EscapeChar(c) by {
        assert ReplaceChar([c], '\\', "\\\\") == if c == '\\' then "\\\\" else [c];
        if c == '\\' {
          assert ReplaceChar("\\\\", '(', "\\(") == "\\\\";
          assert ReplaceChar("\\\\", ')', "\\)") == "\\\\";
        } else if c == '(' {
          assert ReplaceChar("\\(", ')', "\\)") == "\\(";
        } else {
          assert ReplaceChar([c], '(', "\\(") == [c];
        }
      }
      EscapeIsPerCharacter(s[1..]);
    }
  }

  /** Reading an escaped literal string: a backslash keeps the character
      after it. */
  function Unescape(s: string): string {
    if |s| == 0 then ""
    else if s[0] == '\\' && |s| >= 2 then [s[1]] + Unescape(s[2..])
    else [s[0]] + Unescape(s[1..])
  }

  lemma {:induction false} UnescapeEscapeEach(s: string)
    ensures Unescape(EscapeEach(s)) == s
    decreases |s|
  {
    if |s| > 0 {
      var e := EscapeEach(s);
      UnescapeEscapeEach(s[1..]);
      if Special(s[0]) {
        assert e[2..] == EscapeEach(s[1..]);
      } else {
        assert e[1..] == EscapeEach(s[1..]);
      }
    }
  }

  /** Different texts never escape to the same literal. */
  lemma EscapeInjective(a: string, b: string)
    ensures Escape(a) == Escape(b) ==> a == b
  {
  }

  function CountSpecial(s: string): nat {
    if |s| == 0 then 0 else (if Special(s[0]) then 1 else 0) + CountSpecial(s[1..])
  }

  /** The escape adds one backslash per special character and nothing else. */
  lemma {:induction false} EscapeLength(s: string)
    ensures |Escape(s)| == |s| + CountSpecial(s)
    decreases |s|
  {
    if |s| > 0 {
      EscapeLength(s[1..]);
    }
  }

  /** Text without special characters is left as it is. */
  lemma {:induction false} EscapeKeepsPlainText(s: string)
    requires forall i :: 0 <= i < |s| ==> !Special(s[i])
    ensures Escape(s) == s
    decreases |s|
  {
    if |s| > 0 {
      EscapeKeepsPlainText(s[1..]);
    }
  }

  // ---------------------------------------------------------------------
  // The content stream
  // ---------------------------------------------------------------------

  const Top: int := 760
  const Leading: int := 18
  const Bottom: int := 40

  /** The most lines one page takes. */
  const MaxLines: nat := 41

  /** The baseline of the line with index `k` (from 0). */
  function LineY(k: nat): int {
    Top - Leading * k
  }

  /** `f"1 0 0 1 72 {y} Tm ({_escape(line)}) Tj"`. */
  function LineCommand(y: int, line: string): string {
    "1 0 0 1 72 " + Text.IntToString(y) + " Tm (" + Escape(line) + ") Tj"
  }

  /** The command for the line with index `k`. */
  function Command(k: nat, line: string): string {
    LineCommand(LineY(k), line)
  }

  /** `[f(k, s[k]) for k in range(n)]`. */
  function Numbered(s: seq<string>, n: nat, f: (nat, string) -> string): (r: seq<string>)
    requires n <= |s|
    ensures |r| == n
    ensures forall k :: 0 <= k < n ==> r[k] == f(k, s[k])
  {
    seq(n, k requires 0 <= k < n => f(k, s[k]))
  }

  /** Only the first `n` items matter. */
  lemma NumberedPrefix(s: seq<string>, t: seq<string>, n: nat, f: (nat, string) -> string)
    requires n <= |s| && n <= |t| && s[..n] == t[..n]
    ensures Numbered(s, n, f) == Numbered(t, n, f)
  {
    forall k | 0 <= k < n ensures s[k] == t[k] {
      assert s[..n][k] == t[..n][k];
    }
  }

  /** Numbering one more item appends its rendering. */
  lemma NumberedSnoc(s: seq<string>, n: nat, f: (nat, string) -> string)
    requires n < |s|
    ensures Numbered(s, n + 1, f) == Numbered(s, n, f) + [f(n, s[n])]
  {
    assert Numbered(s, n + 1, f)[..n] == Numbered(s, n, f);
  }

  /** The text commands of the lines that fit on the page. */
  function Placed(lines: seq<string>): (placed: seq<string>)
    ensures |placed| == if |lines| < MaxLines then |lines| else MaxLines
  {
    Numbered(lines, if |lines| < MaxLines then |lines| else MaxLines, Command)
  }

  /** A line gets a command exactly when it exists and its baseline is not
      below the bottom margin; the k-th line sits 18 points under the one
      before. */
  lemma PlacedOnPage(lines: seq<string>, k: nat)
    ensures k < |Placed(lines)| <==> k < |lines| && LineY(k) >= Bottom
    ensures k < |Placed(lines)| ==> Placed(lines)[k] == LineCommand(760 - 18 * k, lines[k])
  {
  }

  /** One more line, while the page has room, adds its command. */
  lemma PlacedSnoc(lines: seq<string>, i: nat)
    requires i < |lines| && i < MaxLines
    ensures Placed(lines[..i + 1]) == Placed(lines[..i]) + [LineCommand(LineY(i), lines[i])]
  {
    assert lines[..i + 1][..i + 1] == lines[..i + 1];
    assert lines[..i][..i] == lines[..i];
    NumberedPrefix(lines[..i + 1], lines, i + 1, Command);
    NumberedPrefix(lines[..i], lines, i, Command);
    NumberedSnoc(lines, i, Command);
  }

  /** Lines past the last one the page takes change nothing. */
  lemma PlacedFull(lines: seq<string>)
    requires |lines| >= MaxLines
    ensures Placed(lines) == Placed(lines[..MaxLines])
  {
    assert lines[..MaxLines][..MaxLines] == lines[..MaxLines];
    NumberedPrefix(lines, lines[..MaxLines], MaxLines, Command);
  }

  const Prologue: seq<string> := ["BT", "/F1 12 Tf"]

  /** The command list of `create_pay_stub_pdf_bytes`. */
  function Commands(lines: seq<string>): seq<string> {
    Prologue + Placed(lines) + ["ET"]
  }

  /** The loop of `create_pay_stub_pdf_bytes` that lays out the lines,
      stopping once the baseline falls below the bottom margin. */
  method LayOutLines(lines: seq<string>) returns (commands: seq<string>)
    ensures commands == Commands(lines)
  {
    commands := Prologue;
    var y := Top;
    var i := 0;
    while i < |lines|
      invariant 0 <= i <= |lines| && i < MaxLines
      invariant y == LineY(i)
      invariant commands == Prologue + Placed(lines[..i])
    {
      PlacedSnoc(lines, i);
      commands := commands + [LineCommand(y, lines[i])];
      assert commands == Prologue + Placed(lines[..i + 1]);
      y := y - Leading;
      i := i + 1;
      if y < Bottom {
        assert i == MaxLines;
        PlacedFull(lines);
        break;
      }
    }
    if i == |lines| {
      assert lines[..i] == lines;
    }
    assert commands == Prologue + Placed(lines);
    commands := commands + ["ET"];
  }

  /** `"\n".join(commands)`, before encoding. */
  function ContentText(lines: seq<string>): string {
    Text.Join(Commands(lines), "\n")
  }

  /** Joining two leading parts, some middle parts and a closing part. */
  lemma JoinFramed(a: string, b: string, p: seq<string>, c: string, sep: string)
    ensures |p| == 0 ==> Text.Join([a, b] + p + [c], sep) == a + sep + b + sep + c
    ensures |p| > 0 ==> Text.Join([a, b] + p + [c], sep) == a + sep + b + sep + Text.Join(p, sep) + sep + c
  {
    var parts := [a, b] + p + [c];
    var tail := if |p| == 0 then c else Text.Join(p, sep) + sep + c;
    assert Text.Join(p + [c], sep) == tail by {
      if |p| == 0 {
        assert p + [c] == [c];
      } else {
        Text.JoinAppend(p, [c], sep);
      }
    }
    assert parts[1..] == [b] + (p + [c]);
    assert ([b] + (p + [c]))[1..] == p + [c];
    assert Text.Join(parts, sep) == a + sep + (b + sep + tail);
    Concat5(a, sep, b, sep, tail);
    if |p| > 0 {
      Concat4(a + sep + b + sep, Text.Join(p, sep), sep, c);
    }
  }

  /** Regrouping of concatenations, kept apart so the solver sees only strings. */
  lemma Concat5(a: string, b: string, c: string, d: string, e: string)
    ensures a + b + (c + d + e) == a + b + c + d + e
  {
  }

  lemma Concat4(a: string, b: string, c: string, d: string)
    ensures a + (b + c + d) == a + b + c + d
  {
  }

  /** The stream opens with the text object and font and closes with `ET`. */
  lemma ContentTextShape(lines: seq<string>)
    ensures |Placed(lines)| == 0 ==> ContentText(lines) == "BT" + "\n" + "/F1 12 Tf" + "\n" + "ET"
    ensures |Placed(lines)| > 0 ==>
      ContentText(lines) == "BT" + "\n" + "/F1 12 Tf" + "\n" + Text.Join(Placed(lines), "\n") + "\n" + "ET"
  {
    var p := Placed(lines);
    assert Commands(lines) == ["BT", "/F1 12 Tf"] + p + ["ET"];
    JoinFramed("BT", "/F1 12 Tf", p, "ET", "\n");
  }

  function Stream(lines: seq<string>): Bytes {
    Encode(ContentText(lines))
  }

  // ---------------------------------------------------------------------
  // Objects
  // ---------------------------------------------------------------------

  const Header: Bytes := Encode("%PDF-1.4\n")

  const Catalog: Bytes := Encode("1 0 obj << /Type /Catalog /Pages 2 0 R >> endobj\n")
  const PageTree: Bytes := Encode("2 0 obj << /Type /Pages /Kids [3 0 R] /Count 1 >> endobj\n")
  const Page: Bytes := Encode("3 0 obj << /Type /Page /Parent 2 0 R /MediaBox [0 0 612 792] /Resources << /Font << /F1 4 0 R >> >> /Contents 5 0 R >> endobj\n")
  const Font: Bytes := Encode("4 0 obj << /Type /Font /Subtype /Type1 /BaseFont /Helvetica >> endobj\n")

  /** The dictionary line in front of the stream, with its declared length. */
  function StreamLead(length: nat): string {
    "5 0 obj << /Length " + Text.IntToString(length) + " >> stream\n"
  }

  const StreamTail: string := "\nendstream endobj\n"

  function ContentObject(stream: Bytes): Bytes {
    Encode(StreamLead(|stream|)) + stream + Encode(StreamTail)
  }

  /** The `/Length` of object 5 reads back as the number of stream bytes
      between `stream\n` and `\nendstream`. */
  lemma DeclaredLength(stream: Bytes)
    ensures var lead := StreamLead(|stream|);
      && lead == "5 0 obj << /Length " + Text.NatToString(|stream|) + " >> stream\n"
      && Text.DigitsValue(Text.NatToString(|stream|)) == |stream|
      && ContentObject(stream)[|lead|..|lead| + |stream|] == stream
  {
    Text.DigitsValueOfNatToString(|stream|);
  }

  function Objects(stream: Bytes): (objs: seq<Bytes>)
    ensures |objs| == 5
  {
    [Catalog, PageTree, Page, Font, ContentObject(stream)]
  }

  // ---------------------------------------------------------------------
  // Serialisation
  // ---------------------------------------------------------------------

  /** The objects one after another. */
  function Flatten(objs: seq<Bytes>): Bytes {
    if |objs| == 0 then [] else Flatten(objs[..|objs| - 1]) + objs[|objs| - 1]
  }

  /** The offsets of objects written one after another behind `start`
      bytes: 0 for the free entry, then where each object starts. */
  function OffsetsAfter(start: nat, objs: seq<Bytes>): (offsets: seq<nat>)
    ensures |offsets| == |objs| + 1 && offsets[0] == 0
  {
    [0] + seq(|objs|, k requires 0 <= k < |objs| => start + |Flatten(objs[..k])|)
  }

  /** `offsets` of `create_pay_stub_pdf_bytes`: objects follow the header. */
  function Offsets(objs: seq<Bytes>): (offsets: seq<nat>)
    ensures |offsets| == |objs| + 1 && offsets[0] == 0
  {
    OffsetsAfter(|Header|, objs)
  }

  /** The loop writing the header and the objects and noting the offsets. */
  method WriteObjects(objs: seq<Bytes>) returns (out: Bytes, offsets: seq<nat>)
    ensures out == Header + Flatten(objs)
    ensures offsets == Offsets(objs)
  {
    out := Header;
    offsets := [0];
    var i := 0;
    while i < |objs|
      invariant 0 <= i <= |objs|
      invariant out == Header + Flatten(objs[..i])
      invariant offsets == Offsets(objs[..i])
    {
      offsets := offsets + [|out|];
      out := out + objs[i];
      assert objs[..i + 1] == objs[..i] + [objs[i]];
      OffsetsSnoc(|Header|, objs[..i], objs[i]);
      i := i + 1;
    }
    assert objs[..i] == objs;
  }

  lemma OffsetsSnoc(start: nat, objs: seq<Bytes>, x: Bytes)
    ensures Flatten(objs + [x]) == Flatten(objs) + x
    ensures OffsetsAfter(start, objs + [x]) == OffsetsAfter(start, objs) + [start + |Flatten(objs)|]
  {
    assert (objs + [x])[..|objs|] == objs;
    var a := OffsetsAfter(start, objs + [x]);
    var b := OffsetsAfter(start, objs) + [start + |Flatten(objs)|];
    forall k | 0 < k < |a| ensures a[k] == b[k] {
      assert (objs + [x])[..k - 1] == objs[..k - 1];
    }
  }

  lemma {:induction false} FlattenAppend(a: seq<Bytes>, b: seq<Bytes>)
    ensures Flatten(a + b) == Flatten(a) + Flatten(b)
    decreases |b|
  {
    if |b| == 0 {
      assert a + b == a;
    } else {
      var front := b[..|b| - 1];
      var x := b[|b| - 1];
      assert (a + b)[..|a + b| - 1] == a + front;
      assert Flatten(a + b) == Flatten(a + front) + x;
      FlattenAppend(a, front);
      assert Flatten(a) + Flatten(front) + x == Flatten(a) + (Flatten(front) + x);
    }
  }

  /** Every in-use cross-reference offset points at its object: the bytes
      starting there are exactly that object, and the next offset is this
      one plus the object's length. */
  lemma ObjectAtItsOffset(objs: seq<Bytes>, k: nat)
    requires 1 <= k <= |objs|
    ensures var offsets := Offsets(objs);
      && offsets[k] + |objs[k - 1]| <= |Header + Flatten(objs)|
      && (Header + Flatten(objs))[offsets[k]..offsets[k] + |objs[k - 1]|] == objs[k - 1]
      && (k < |objs| ==> offsets[k + 1] == offsets[k] + |objs[k - 1]|)
  {
    ObjectAfter(Header, objs, k);
  }

  /** The same for objects written behind any lead-in `h`. */
  lemma ObjectAfter(h: Bytes, objs: seq<Bytes>, k: nat)
    requires 1 <= k <= |objs|
    ensures var offsets := OffsetsAfter(|h|, objs);
      && offsets[k] + |objs[k - 1]| <= |h + Flatten(objs)|
      && (h + Flatten(objs))[offsets[k]..offsets[k] + |objs[k - 1]|] == objs[k - 1]
      && (k < |objs| ==> offsets[k + 1] == offsets[k] + |objs[k - 1]|)
  {
    var before := objs[..k - 1];
    var o := objs[k - 1];
    assert objs[..k] == before + [o];
    OffsetsSnoc(|h|, before, o);
    assert objs == objs[..k] + objs[k..];
    FlattenAppend(objs[..k], objs[k..]);
    var lead := h + Flatten(before);
    assert h + Flatten(objs) == lead + o + Flatten(objs[k..]);
    assert OffsetsAfter(|h|, objs)[k] == |lead|;
    SliceMiddle(lead, o, Flatten(objs[k..]));
    if k < |objs| {
      assert OffsetsAfter(|h|, objs)[k + 1] == |h| + |Flatten(objs[..k])|;
    }
  }

  lemma SliceMiddle(a: Bytes, b: Bytes, c: Bytes)
    ensures (a + b + c)[|a|..|a| + |b|] == b
  {
  }

  /** The first object starts right after the 9-byte header. */
  lemma FirstObjectAfterHeader(objs: seq<Bytes>)
    requires |objs| >= 1
    ensures Offsets(objs)[1] == 9
  {
    assert objs[..0] == [];
  }

  // ---------------------------------------------------------------------
  // Cross-reference table and trailer
  // ---------------------------------------------------------------------

  /** `f"{off:010d} 00000 n \n"`. */
  function XrefEntry(offset: nat): string {
    Text.ZFill(Text.NatToString(offset), 10) + " 00000 n \n"
  }

  const FreeEntry: string := "0000000000 65535 f \n"

  function XrefEntries(offsets: seq<nat>): string {
    if |offsets| == 0 then "" else XrefEntries(offsets[..|offsets| - 1]) + XrefEntry(offsets[|offsets| - 1])
  }

  /** The subsection after the `xref` keyword: its first object number and
      entry count, the free entry, then one entry per offset. */
  function XrefSection(offsets: seq<nat>): string
    requires |offsets| >= 1
  {
    "0 " + Text.IntToString(|offsets|) + "\n" + FreeEntry + XrefEntries(offsets[1..])
  }

  function XrefTable(offsets: seq<nat>): Bytes
    requires |offsets| >= 1
  {
    Encode("xref\n" + XrefSection(offsets))
  }

  function Trailer(size: nat, xrefStart: nat): Bytes {
    Encode("trailer << /Size " + Text.IntToString(size) + " /Root 1 0 R >>\nstartxref\n"
           + Text.IntToString(xrefStart) + "\n%%EOF\n")
  }

  /** An entry is 20 bytes for any offset below 10^10, and its first ten
      characters read back as the offset. */
  lemma XrefEntryShape(offset: nat)
    requires offset < 10000000000
    ensures |XrefEntry(offset)| == 20 && |FreeEntry| == 20
    ensures Text.AllDigits(XrefEntry(offset)[..10])
    ensures Text.DigitsValue(XrefEntry(offset)[..10]) == offset
  {
    var digits := Text.NatToString(offset);
    assert Text.Pow10(10) == 10000000000;
    Text.NatToStringLength(offset, 10);
    var padded := Text.ZFill(digits, 10);
    assert XrefEntry(offset)[..10] == padded;
    if |digits| < 10 {
      assert !(digits[0] in "+-");
      Text.DigitsValueOfZeros(10 - |digits|, digits);
    }
    Text.DigitsValueOfNatToString(offset);
  }

  lemma {:induction false} XrefEntriesLength(offsets: seq<nat>)
    requires forall i :: 0 <= i < |offsets| ==> offsets[i] < 10000000000
    ensures |XrefEntries(offsets)| == 20 * |offsets|
    decreases |offsets|
  {
    if |offsets| > 0 {
      XrefEntriesLength(offsets[..|offsets| - 1]);
      XrefEntryShape(offsets[|offsets| - 1]);
    }
  }

  // ---------------------------------------------------------------------
  // create_pay_stub_pdf_bytes
  // ---------------------------------------------------------------------

  /** Header and objects: everything before the cross-reference table. */
  function Body(lines: seq<string>): Bytes {
    Header + Flatten(Objects(Stream(lines)))
  }

  /** `create_pay_stub_pdf_bytes(lines)`: header, the five objects, the
      cross-reference table over their offsets, and a trailer whose size is
      six entries and whose `startxref` is where the table starts. */
  method CreatePayStubPdfBytes(lines: seq<string>) returns (pdf: Bytes)
    ensures pdf == Body(lines) + XrefTable(Offsets(Objects(Stream(lines)))) + Trailer(6, |Body(lines)|)
    ensures |Offsets(Objects(Stream(lines)))| == 6
  {
    var commands := LayOutLines(lines);
    var stream := Encode(Text.Join(commands, "\n"));
    var objs := [Catalog, PageTree, Page, Font, ContentObject(stream)];
    var out, offsets := WriteObjects(objs);
    var xrefStart := |out|;
    out := out + XrefTable(offsets);
    out := out + Trailer(|offsets|, xrefStart);
    pdf := out;
  }

  /** `startxref` points at the `xref` keyword. */
  lemma StartXrefPointsAtTable(lines: seq<string>)
    ensures var offsets := Offsets(Objects(Stream(lines)));
      var pdf := Body(lines) + XrefTable(offsets) + Trailer(6, |Body(lines)|);
      pdf[|Body(lines)|..|Body(lines)| + 5] == Encode("xref\n")
  {
    var offsets := Offsets(Objects(Stream(lines)));
    EncodeAppend("xref\n", XrefSection(offsets));
    SliceAtStart(Body(lines), Encode("xref\n"), Encode(XrefSection(offsets)), Trailer(6, |Body(lines)|));
  }

  lemma SliceAtStart(a: Bytes, b: Bytes, c: Bytes, d: Bytes)
    ensures (a + (b + c) + d)[|a|..|a| + |b|] == b
  {
    assert a + (b + c) + d == a + b + (c + d);
    SliceMiddle(a, b, c + d);
  }
}
