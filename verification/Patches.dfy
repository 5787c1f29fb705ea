/**
  Unified diffs in utils/check-style.py: the objects, how they are written, and how
  parse_patchset reads them back.
*/
module Patches {
  import opened Prelude
  import opened Seqs

  datatype LineKind = Src | Dst | Both

  datatype ChunkLine = ChunkLine(kind: LineKind, text: string)

  datatype Chunk = Chunk(srcPos: nat, dstPos: nat, lines: seq<ChunkLine>)

  datatype Patch = Patch(src: string, dst: string, chunks: seq<Chunk>)

  predicate NoNewline(s: string) {
    '\n' !in s
  }

  // ---------------------------------------------------------------------- decimal numbers

  predicate IsDigit(c: char) {
    '0' <= c <= '9'
  }

  function DigitChar(d: nat): char
    requires d < 10
  {
    '0' + d as char
  }

  function DigitValue(c: char): nat
    requires IsDigit(c)
  {
    (c - '0') as nat
  }

  predicate IsNumber(s: string) {
    s != "" && forall i :: 0 <= i < |s| ==> IsDigit(s[i])
  }

  function Decimal(n: nat): (s: string)
    ensures IsNumber(s)
  {
    if n < 10 then [DigitChar(n)] else Decimal(n / 10) + [DigitChar(n % 10)]
  }

  function NumberValue(s: string): nat
    requires forall i :: 0 <= i < |s| ==> IsDigit(s[i])
  {
    if s == "" then 0 else 10 * NumberValue(s[..|s| - 1]) + DigitValue(s[|s| - 1])
  }

  lemma {:induction false} DecimalRead(n: nat)
    ensures NumberValue(Decimal(n)) == n
  {
    if n < 10 {
      assert Decimal(n)[..0] == "";
    } else {
      DecimalRead(n / 10);
      AppendInit(Decimal(n / 10), DigitChar(n % 10));
    }
  }

  // ---------------------------------------------------------------- the regular expressions

  /** The match of a fixed prefix followed by the rest of the line. */
  function After(prefix: string, line: string): Option<string> {
    if prefix <= line && NoNewline(Chomp(line[|prefix|..])) then Some(Chomp(line[|prefix|..])) else None
  }

  function DigitsPrefix(s: string): (n: nat)
    ensures n <= |s| && forall i :: 0 <= i < n ==> IsDigit(s[i])
    ensures n < |s| ==> !IsDigit(s[n])
  {
    if s == "" || !IsDigit(s[0]) then 0 else 1 + DigitsPrefix(s[1..])
  }

  /** A number, the text before it and the text after it. */
  function NumberAfter(prefix: string, s: string): Option<(nat, string)> {
    if prefix <= s && DigitsPrefix(s[|prefix|..]) > 0 then
      var rest := s[|prefix|..];
      var n := DigitsPrefix(rest);
      Some((NumberValue(rest[..n]), rest[n..]))
    else None
  }

  datatype Header = Header(srcPos: nat, srcLen: nat, dstPos: nat, dstLen: nat)

  /** The match of a chunk header; what follows the second pair of at-signs is ignored. */
  function ReadHeader(line: string): Option<Header> {
    var a := NumberAfter("@@ -", line);
    if a.None? then None else
      var b := NumberAfter(",", a.value.1);
      if b.None? then None else
        var c := NumberAfter(" +", b.value.1);
        if c.None? then None else
          var d := NumberAfter(",", c.value.1);
          if d.None? || !(" @@" <= d.value.1) then None
          else Some(Header(a.value.0, b.value.0, c.value.0, d.value.0))
  }

  lemma PrefixDrop(prefix: string, s: string)
    ensures prefix <= prefix + s && (prefix + s)[|prefix|..] == s
  {
  }

  lemma {:induction false} DigitsPrefixOf(number: string, s: string)
    requires forall i :: 0 <= i < |number| ==> IsDigit(number[i])
    requires s != "" && !IsDigit(s[0])
    ensures DigitsPrefix(number + s) == |number|
  {
    if number == "" {
      assert number + s == s;
    } else {
      DigitsPrefixOf(number[1..], s);
      assert (number + s)[1..] == number[1..] + s;
    }
  }

  lemma NumberRead(prefix: string, n: nat, s: string)
    requires s != "" && !IsDigit(s[0])
    ensures NumberAfter(prefix, prefix + (Decimal(n) + s)) == Some((n, s))
  {
    PrefixDrop(prefix, Decimal(n) + s);
    DigitsPrefixOf(Decimal(n), s);
    PrefixDrop(Decimal(n), s);
    assert (Decimal(n) + s)[..|Decimal(n)|] == Decimal(n);
    DecimalRead(n);
  }

  // ------------------------------------------------------------------------------- writing

  function Sign(k: LineKind): string {
    match k case Src => "-" case Dst => "+" case Both => " "
  }

  function LineText(l: ChunkLine): string {
    Sign(l.kind) + l.text + "\n"
  }

  predicate IsSrc(l: ChunkLine) {
    l.kind.Src? || l.kind.Both?
  }

  predicate IsDst(l: ChunkLine) {
    l.kind.Dst? || l.kind.Both?
  }

  function SrcLines(lines: seq<ChunkLine>): seq<ChunkLine> {
    if lines == [] then [] else
      var init, l := lines[..|lines| - 1], lines[|lines| - 1];
      if IsSrc(l) then SrcLines(init) + [l] else SrcLines(init)
  }

  function DstLines(lines: seq<ChunkLine>): seq<ChunkLine> {
    if lines == [] then [] else
      var init, l := lines[..|lines| - 1], lines[|lines| - 1];
      if IsDst(l) then DstLines(init) + [l] else DstLines(init)
  }

  function HeaderText(h: Header): string {
    "@@ -" + (Decimal(h.srcPos) + ("," + (Decimal(h.srcLen)
      + (" +" + (Decimal(h.dstPos) + ("," + (Decimal(h.dstLen) + " @@\n")))))))
  }

  function HeaderOf(c: Chunk): Header {
    Header(c.srcPos, |SrcLines(c.lines)|, c.dstPos, |DstLines(c.lines)|)
  }

  function LinesTexts(lines: seq<ChunkLine>): seq<string> {
    if lines == [] then [] else LinesTexts(lines[..|lines| - 1]) + [LineText(lines[|lines| - 1])]
  }

  function ChunkTexts(c: Chunk): seq<string> {
    [HeaderText(HeaderOf(c))] + LinesTexts(c.lines)
  }

  function ChunksTexts(chunks: seq<Chunk>): seq<string> {
    if chunks == [] then [] else ChunksTexts(chunks[..|chunks| - 1]) + ChunkTexts(chunks[|chunks| - 1])
  }

  function PatchTexts(p: Patch): seq<string> {
    ["--- " + p.src + "\n", "+++ " + p.dst + "\n"] + ChunksTexts(p.chunks)
  }

  function PatchesTexts(ps: seq<Patch>): seq<string> {
    if ps == [] then [] else PatchesTexts(ps[..|ps| - 1]) + PatchTexts(ps[|ps| - 1])
  }

  /** The counts in a written header are the sizes of the two projections of the chunk. */
  lemma HeaderIsRead(h: Header)
    ensures ReadHeader(HeaderText(h)) == Some(h)
  {
    var d := "," + (Decimal(h.dstLen) + " @@\n");
    var c := " +" + (Decimal(h.dstPos) + d);
    var b := "," + (Decimal(h.srcLen) + c);
    NumberRead("@@ -", h.srcPos, b);
    NumberRead(",", h.srcLen, c);
    NumberRead(" +", h.dstPos, d);
    NumberRead(",", h.dstLen, " @@\n");
  }

  // ------------------------------------------------------------------------------- parsing

  /** What the first regular expression to match makes of a line. */
  datatype Reading =
    | NewPatch(src: string)
    | SetDst(dst: string)
    | NewChunk(srcPos: nat, dstPos: nat)
    | AddLine(line: ChunkLine)
    | NoMatch

  function Read(line: string): Reading {
    if After("--- ", line).Some? then NewPatch(After("--- ", line).value)
    else if After("+++ ", line).Some? then SetDst(After("+++ ", line).value)
    else if ReadHeader(line).Some? then NewChunk(ReadHeader(line).value.srcPos, ReadHeader(line).value.dstPos)
    else if After("-", line).Some? then AddLine(ChunkLine(Src, After("-", line).value))
    else if After("+", line).Some? then AddLine(ChunkLine(Dst, After("+", line).value))
    else if After(" ", line).Some? then AddLine(ChunkLine(Both, After(" ", line).value))
    else NoMatch
  }

  /** The patches so far; the current patch is the last one, the current chunk is found by its indices. */
  datatype State = State(patches: seq<Patch>, chunk: Option<(nat, nat)>)

  const START := State([], None)

  predicate StateOk(st: State) {
    st.chunk.Some? ==> st.chunk.value.0 < |st.patches| && st.chunk.value.1 < |st.patches[st.chunk.value.0].chunks|
  }

  function AddTo(ps: seq<Patch>, i: nat, j: nat, l: ChunkLine): seq<Patch>
    requires i < |ps| && j < |ps[i].chunks|
  {
    var p := ps[i];
    var c := p.chunks[j];
    ps[i := p.(chunks := p.chunks[j := c.(lines := c.lines + [l])])]
  }

  /** None where the parser raises: no patch yet, no chunk yet, or no match. */
  function Apply(st: State, r: Reading): (r': Option<State>)
    requires StateOk(st)
    ensures r'.Some? ==> StateOk(r'.value)
  {
    match r
    case NewPatch(s) => Some(st.(patches := st.patches + [Patch(s, "", [])]))
    case SetDst(d) =>
      if st.patches == [] then None else
        var k := |st.patches| - 1;
        Some(st.(patches := st.patches[k := st.patches[k].(dst := d)]))
    case NewChunk(a, b) =>
      if st.patches == [] then None else
        var k := |st.patches| - 1;
        var p := st.patches[k];
        Some(State(st.patches[k := p.(chunks := p.chunks + [Chunk(a, b, [])])], Some((k, |p.chunks|))))
    case AddLine(l) =>
      if st.chunk.None? then None
      else Some(st.(patches := AddTo(st.patches, st.chunk.value.0, st.chunk.value.1, l)))
    case NoMatch => None
  }

  function ReadFrom(st: State, lines: seq<string>): (r: Option<State>)
    requires StateOk(st)
    ensures r.Some? ==> StateOk(r.value)
  {
    if lines == [] then Some(st) else
      var before := ReadFrom(st, lines[..|lines| - 1]);
      if before.None? then None else Apply(before.value, Read(lines[|lines| - 1]))
  }

  lemma {:induction false} ReadConcat(st: State, a: seq<string>, b: seq<string>)
    requires StateOk(st) && ReadFrom(st, a).Some?
    ensures ReadFrom(st, a + b) == ReadFrom(ReadFrom(st, a).value, b)
  {
    if b == [] {
      assert a + b == a;
    } else {
      ConcatInit(a, b);
      ReadConcat(st, a, b[..|b| - 1]);
    }
  }

  // --------------------------------------------------------------- what written lines read as

  /** A removed line that looks like the start of a patch, or an added line that looks like its second line. */
  predicate Misleading(l: ChunkLine) {
    (l.kind.Src? && "-- " <= l.text) || (l.kind.Dst? && "++ " <= l.text)
  }

  lemma AfterReads(prefix: string, s: string)
    requires NoNewline(s)
    ensures After(prefix, prefix + s + "\n") == Some(s)
  {
    assert prefix + s + "\n" == prefix + (s + "\n");
    PrefixDrop(prefix, s + "\n");
    assert (s + "\n")[..|s|] == s;
  }

  lemma OtherStart(prefix: string, line: string)
    requires prefix != "" && line != "" && prefix[0] != line[0]
    ensures After(prefix, line) == None
  {
  }

  lemma NotPrefix(prefix: string, line: string)
    requires !(prefix <= line)
    ensures After(prefix, line) == None
  {
  }

  /** A sign in front and a newline behind do not change what a text starts with. */
  lemma SignedPrefix(sign: string, prefix: string, text: string)
    requires NoNewline(prefix)
    ensures sign + prefix <= sign + text + "\n" <==> prefix <= text
  {
    var t := sign + text + "\n";
    assert |prefix| > |text| ==> prefix[|text|] in prefix;
    if sign + prefix <= t {
      forall i | 0 <= i < |prefix| ensures prefix[i] == (text + "\n")[i] {
        assert (sign + prefix)[|sign| + i] == t[|sign| + i];
      }
    }
  }

  lemma HeaderNeedsAt(line: string)
    requires line != "" && line[0] != '@'
    ensures ReadHeader(line) == None
  {
  }

  lemma LineReads(l: ChunkLine)
    requires NoNewline(l.text) && !Misleading(l)
    ensures Read(LineText(l)) == AddLine(l)
  {
    var t := LineText(l);
    AfterReads(Sign(l.kind), l.text);
    HeaderNeedsAt(t);
    SignedPrefix("-", "-- ", l.text);
    SignedPrefix("+", "++ ", l.text);
    assert "-" + "-- " == "--- " && "+" + "++ " == "+++ ";
    match l.kind
    case Src => NotPrefix("--- ", t); OtherStart("+++ ", t);
    case Dst => OtherStart("--- ", t); NotPrefix("+++ ", t); OtherStart("-", t);
    case Both => OtherStart("--- ", t); OtherStart("+++ ", t); OtherStart("-", t); OtherStart("+", t);
  }

  lemma MisleadingReads(l: ChunkLine)
    requires NoNewline(l.text) && Misleading(l)
    ensures Read(LineText(l)) == if l.kind.Src? then NewPatch(l.text[3..]) else SetDst(l.text[3..])
  {
    var start, rest := l.text[..3], l.text[3..];
    assert l.text == start + rest;
    assert LineText(l) == Sign(l.kind) + start + rest + "\n";
    assert forall c :: c in rest ==> c in l.text;
    AfterReads(Sign(l.kind) + start, rest);
    if l.kind.Src? {
      assert Sign(l.kind) + start == "--- ";
    } else {
      assert Sign(l.kind) + start == "+++ ";
      OtherStart("--- ", LineText(l));
    }
  }

  lemma FileLinesRead(name: string)
    requires NoNewline(name)
    ensures Read("--- " + name + "\n") == NewPatch(name) && Read("+++ " + name + "\n") == SetDst(name)
  {
    AfterReads("--- ", name);
    AfterReads("+++ ", name);
    OtherStart("--- ", "+++ " + name + "\n");
  }

  lemma HeaderReads(h: Header)
    ensures Read(HeaderText(h)) == NewChunk(h.srcPos, h.dstPos)
  {
    HeaderIsRead(h);
    HeaderStart(h);
    OtherStart("--- ", HeaderText(h));
    OtherStart("+++ ", HeaderText(h));
  }

  lemma HeaderStart(h: Header)
    ensures HeaderText(h) != "" && HeaderText(h)[0] == '@'
  {
  }

  // ----------------------------------------------------------------------------- round trip

  predicate LinesOk(lines: seq<ChunkLine>) {
    forall i :: 0 <= i < |lines| ==> NoNewline(lines[i].text)
  }

  predicate ChunksOk(chunks: seq<Chunk>) {
    forall i :: 0 <= i < |chunks| ==> LinesOk(chunks[i].lines)
  }

  /** No field contains a newline. */
  predicate PatchesOk(ps: seq<Patch>) {
    forall i :: 0 <= i < |ps| ==> NoNewline(ps[i].src) && NoNewline(ps[i].dst) && ChunksOk(ps[i].chunks)
  }

  predicate LinesClean(lines: seq<ChunkLine>) {
    forall i :: 0 <= i < |lines| ==> !Misleading(lines[i])
  }

  predicate ChunksClean(chunks: seq<Chunk>) {
    forall i :: 0 <= i < |chunks| ==> LinesClean(chunks[i].lines)
  }

  predicate PatchesClean(ps: seq<Patch>) {
    forall i :: 0 <= i < |ps| ==> ChunksClean(ps[i].chunks)
  }

  /** The parser inside the last chunk of the last patch. */
  function Inside(before: seq<Patch>, p: Patch, c: Chunk): State {
    State(before + [p.(chunks := p.chunks + [c])], Some((|before|, |p.chunks|)))
  }

  lemma AddInside(before: seq<Patch>, p: Patch, c: Chunk, l: ChunkLine)
    ensures Apply(Inside(before, p, c), AddLine(l)) == Some(Inside(before, p, c.(lines := c.lines + [l])))
  {
    var st := Inside(before, p, c);
    assert st.patches[|before|].chunks[|p.chunks|] == c;
    var d := c.(lines := c.lines + [l]);
    assert (p.chunks + [c])[|p.chunks| := d] == p.chunks + [d];
    assert st.patches[|before| := p.(chunks := p.chunks + [d])] == before + [p.(chunks := p.chunks + [d])];
  }

  lemma {:induction false} LinesReadBack(before: seq<Patch>, p: Patch, c: Chunk, lines: seq<ChunkLine>)
    requires c.lines == [] && LinesOk(lines) && LinesClean(lines)
    ensures ReadFrom(Inside(before, p, c), LinesTexts(lines)) == Some(Inside(before, p, c.(lines := lines)))
  {
    if lines != [] {
      var init, l := lines[..|lines| - 1], lines[|lines| - 1];
      LinesReadBack(before, p, c, init);
      LineReads(l);
      AddInside(before, p, c.(lines := init), l);
      InitLast(lines);
      AppendInit(LinesTexts(init), LineText(l));
    }
  }

  lemma ChunkReadsBack(before: seq<Patch>, p: Patch, k: Option<(nat, nat)>, c: Chunk)
    requires StateOk(State(before + [p], k)) && LinesOk(c.lines) && LinesClean(c.lines)
    ensures ReadFrom(State(before + [p], k), ChunkTexts(c)) == Some(Inside(before, p, c))
  {
    var st, header := State(before + [p], k), [HeaderText(HeaderOf(c))];
    var empty := Inside(before, p, c.(lines := []));
    HeaderReads(HeaderOf(c));
    assert header[..0] == [];
    assert ReadFrom(st, header) == Some(empty) by {
      assert (before + [p])[|before| := p.(chunks := p.chunks + [c.(lines := [])])] == empty.patches;
    }
    LinesReadBack(before, p, c.(lines := []), c.lines);
    ReadConcat(st, header, LinesTexts(c.lines));
  }

  lemma {:induction false} ChunksReadBack(before: seq<Patch>, p: Patch, k: Option<(nat, nat)>, chunks: seq<Chunk>)
    requires p.chunks == [] && StateOk(State(before + [p], k)) && ChunksOk(chunks) && ChunksClean(chunks)
    ensures var r := ReadFrom(State(before + [p], k), ChunksTexts(chunks));
      r.Some? && r.value.patches == before + [p.(chunks := chunks)]
  {
    if chunks == [] {
      assert p.(chunks := chunks) == p;
    } else {
      var init, c := chunks[..|chunks| - 1], chunks[|chunks| - 1];
      ChunksReadBack(before, p, k, init);
      var st := ReadFrom(State(before + [p], k), ChunksTexts(init)).value;
      ChunkReadsBack(before, p.(chunks := init), st.chunk, c);
      ReadConcat(State(before + [p], k), ChunksTexts(init), ChunkTexts(c));
      InitLast(chunks);
    }
  }

  lemma ReadOne(st: State, line: string)
    requires StateOk(st)
    ensures ReadFrom(st, [line]) == Apply(st, Read(line))
  {
    assert [line][..0] == [];
  }

  lemma StartPatch(st: State, src: string, dst: string)
    requires StateOk(st)
    ensures var a := Apply(st, NewPatch(src));
      a.Some? && Apply(a.value, SetDst(dst)) == Some(State(st.patches + [Patch(src, dst, [])], st.chunk))
  {
    var ps := st.patches + [Patch(src, "", [])];
    assert ps[|st.patches| := Patch(src, dst, [])] == st.patches + [Patch(src, dst, [])];
  }

  lemma FileLinesReadBack(st: State, src: string, dst: string)
    requires StateOk(st) && NoNewline(src) && NoNewline(dst)
    ensures ReadFrom(st, ["--- " + src + "\n", "+++ " + dst + "\n"]) ==
      Some(State(st.patches + [Patch(src, dst, [])], st.chunk))
  {
    var a, b := "--- " + src + "\n", "+++ " + dst + "\n";
    FileLinesRead(src);
    FileLinesRead(dst);
    StartPatch(st, src, dst);
    ReadOne(st, a);
    ReadOne(ReadFrom(st, [a]).value, b);
    ReadConcat(st, [a], [b]);
    assert [a] + [b] == [a, b];
  }

  lemma PatchReadsBack(st: State, p: Patch)
    requires StateOk(st) && NoNewline(p.src) && NoNewline(p.dst) && ChunksOk(p.chunks) && ChunksClean(p.chunks)
    ensures var r := ReadFrom(st, PatchTexts(p)); r.Some? && r.value.patches == st.patches + [p]
  {
    var files, q := ["--- " + p.src + "\n", "+++ " + p.dst + "\n"], Patch(p.src, p.dst, []);
    FileLinesReadBack(st, p.src, p.dst);
    ChunksReadBack(st.patches, q, st.chunk, p.chunks);
    ReadConcat(st, files, ChunksTexts(p.chunks));
  }

  lemma {:induction false} PatchesReadBack(ps: seq<Patch>)
    requires PatchesOk(ps) && PatchesClean(ps)
    ensures var r := ReadFrom(START, PatchesTexts(ps)); r.Some? && r.value.patches == ps
  {
    if ps != [] {
      var init, p := ps[..|ps| - 1], ps[|ps| - 1];
      PatchesReadBack(init);
      PatchReadsBack(ReadFrom(START, PatchesTexts(init)).value, p);
      ReadConcat(START, PatchesTexts(init), PatchTexts(p));
      InitLast(ps);
    }
  }

  // --------------------------------------------------- misleading lines are never read back

  function CountAdd(lines: seq<string>): nat {
    if lines == [] then 0 else
      CountAdd(lines[..|lines| - 1]) + if Read(lines[|lines| - 1]).AddLine? then 1 else 0
  }

  function ChunksSize(chunks: seq<Chunk>): nat {
    if chunks == [] then 0 else ChunksSize(chunks[..|chunks| - 1]) + |chunks[|chunks| - 1].lines|
  }

  function PatchesSize(ps: seq<Patch>): nat {
    if ps == [] then 0 else PatchesSize(ps[..|ps| - 1]) + ChunksSize(ps[|ps| - 1].chunks)
  }

  lemma {:induction false} ChunksSizeUpdate(chunks: seq<Chunk>, j: nat, c: Chunk)
    requires j < |chunks|
    ensures ChunksSize(chunks[j := c]) == ChunksSize(chunks) - |chunks[j].lines| + |c.lines|
  {
    var k := |chunks| - 1;
    if j == k {
      assert chunks[j := c][..k] == chunks[..k];
    } else {
      ChunksSizeUpdate(chunks[..k], j, c);
      assert chunks[j := c][..k] == chunks[..k][j := c];
    }
  }

  lemma {:induction false} PatchesSizeUpdate(ps: seq<Patch>, i: nat, p: Patch)
    requires i < |ps|
    ensures PatchesSize(ps[i := p]) == PatchesSize(ps) - ChunksSize(ps[i].chunks) + ChunksSize(p.chunks)
  {
    var k := |ps| - 1;
    if i == k {
      assert ps[i := p][..k] == ps[..k];
    } else {
      PatchesSizeUpdate(ps[..k], i, p);
      assert ps[i := p][..k] == ps[..k][i := p];
    }
  }

  /** Only a reading as a line adds a line. */
  lemma ApplyCounts(st: State, r: Reading)
    requires StateOk(st) && Apply(st, r).Some?
    ensures PatchesSize(Apply(st, r).value.patches) == PatchesSize(st.patches) + (if r.AddLine? then 1 else 0)
  {
    var k := |st.patches| - 1;
    match r
    case NewPatch(src) => AppendInit(st.patches, Patch(src, "", []));
    case SetDst(d) => PatchesSizeUpdate(st.patches, k, st.patches[k].(dst := d));
    case NewChunk(a, b) =>
      var p := st.patches[k];
      AppendInit(p.chunks, Chunk(a, b, []));
      PatchesSizeUpdate(st.patches, k, p.(chunks := p.chunks + [Chunk(a, b, [])]));
    case AddLine(l) =>
      var (i, j) := st.chunk.value;
      var p := st.patches[i];
      var c := p.chunks[j].(lines := p.chunks[j].lines + [l]);
      ChunksSizeUpdate(p.chunks, j, c);
      PatchesSizeUpdate(st.patches, i, p.(chunks := p.chunks[j := c]));
  }

  lemma {:induction false} ReadCounts(st: State, lines: seq<string>)
    requires StateOk(st) && ReadFrom(st, lines).Some?
    ensures PatchesSize(ReadFrom(st, lines).value.patches) == PatchesSize(st.patches) + CountAdd(lines)
  {
    if lines != [] {
      var init := lines[..|lines| - 1];
      ReadCounts(st, init);
      ApplyCounts(ReadFrom(st, init).value, Read(lines[|lines| - 1]));
    }
  }

  lemma {:induction false} CountConcat(a: seq<string>, b: seq<string>)
    ensures CountAdd(a + b) == CountAdd(a) + CountAdd(b)
  {
    if b == [] {
      assert a + b == a;
    } else {
      CountConcat(a, b[..|b| - 1]);
      assert (a + b)[..|a + b| - 1] == a + b[..|b| - 1];
    }
  }

  lemma {:induction false} LinesCounts(lines: seq<ChunkLine>)
    requires LinesOk(lines)
    ensures CountAdd(LinesTexts(lines)) <= |lines|
    ensures CountAdd(LinesTexts(lines)) == |lines| <==> LinesClean(lines)
  {
    if lines != [] {
      var init, l := lines[..|lines| - 1], lines[|lines| - 1];
      LinesCounts(init);
      AppendInit(LinesTexts(init), LineText(l));
      if Misleading(l) {
        MisleadingReads(l);
      } else {
        LineReads(l);
      }
      InitLast(lines);
    }
  }

  lemma ChunkCounts(c: Chunk)
    requires LinesOk(c.lines)
    ensures CountAdd(ChunkTexts(c)) <= |c.lines|
    ensures CountAdd(ChunkTexts(c)) == |c.lines| <==> LinesClean(c.lines)
  {
    var header := [HeaderText(HeaderOf(c))];
    HeaderReads(HeaderOf(c));
    assert header[..0] == [];
    CountConcat(header, LinesTexts(c.lines));
    LinesCounts(c.lines);
  }

  lemma {:induction false} ChunksCounts(chunks: seq<Chunk>)
    requires ChunksOk(chunks)
    ensures CountAdd(ChunksTexts(chunks)) <= ChunksSize(chunks)
    ensures CountAdd(ChunksTexts(chunks)) == ChunksSize(chunks) <==> ChunksClean(chunks)
  {
    if chunks != [] {
      var init, c := chunks[..|chunks| - 1], chunks[|chunks| - 1];
      ChunksCounts(init);
      ChunkCounts(c);
      CountConcat(ChunksTexts(init), ChunkTexts(c));
      InitLast(chunks);
    }
  }

  lemma PatchCounts(p: Patch)
    requires NoNewline(p.src) && NoNewline(p.dst) && ChunksOk(p.chunks)
    ensures CountAdd(PatchTexts(p)) <= ChunksSize(p.chunks)
    ensures CountAdd(PatchTexts(p)) == ChunksSize(p.chunks) <==> ChunksClean(p.chunks)
  {
    var a, b := "--- " + p.src + "\n", "+++ " + p.dst + "\n";
    FileLinesRead(p.src);
    FileLinesRead(p.dst);
    assert [a, b][..1] == [a] && [a][..0] == [];
    assert CountAdd([a]) == 0;
    CountConcat([a, b], ChunksTexts(p.chunks));
    ChunksCounts(p.chunks);
  }

  lemma {:induction false} PatchesCounts(ps: seq<Patch>)
    requires PatchesOk(ps)
    ensures CountAdd(PatchesTexts(ps)) <= PatchesSize(ps)
    ensures CountAdd(PatchesTexts(ps)) == PatchesSize(ps) <==> PatchesClean(ps)
  {
    if ps != [] {
      var init, p := ps[..|ps| - 1], ps[|ps| - 1];
      PatchesCounts(init);
      PatchCounts(p);
      CountConcat(PatchesTexts(init), PatchTexts(p));
      InitLast(ps);
    }
  }

  // ------------------------------------------------------------------------ text and lines

  function Concat(lines: seq<string>): string {
    if lines == [] then "" else Concat(lines[..|lines| - 1]) + lines[|lines| - 1]
  }

  function LineLength(s: string): (n: nat)
    requires s != ""
    ensures 0 < n <= |s|
  {
    if s[0] == '\n' || |s| == 1 then 1 else 1 + LineLength(s[1..])
  }

  /** Iterating over a text gives its lines, newlines included. */
  function SplitLines(text: string): seq<string>
    decreases |text|
  {
    if text == "" then [] else [text[..LineLength(text)]] + SplitLines(text[LineLength(text)..])
  }

  predicate IsLine(s: string) {
    s != "" && s[|s| - 1] == '\n' && NoNewline(s[..|s| - 1])
  }

  lemma {:induction false} FirstLine(line: string, rest: string)
    requires IsLine(line)
    ensures LineLength(line + rest) == |line|
  {
    var t := line + rest;
    if |line| > 1 {
      assert line[0] == line[..|line| - 1][0];
      assert line[1..][..|line| - 2] == line[..|line| - 1][1..];
      FirstLine(line[1..], rest);
      assert t[1..] == line[1..] + rest;
    }
  }

  lemma {:induction false} SplitConcat(lines: seq<string>, rest: string)
    requires forall i :: 0 <= i < |lines| ==> IsLine(lines[i])
    ensures SplitLines(Concat(lines) + rest) == lines + SplitLines(rest)
  {
    if lines == [] {
      assert Concat(lines) + rest == rest;
    } else {
      var init, l := lines[..|lines| - 1], lines[|lines| - 1];
      SplitConcat(init, l + rest);
      Assoc(Concat(init), l, rest);
      FirstLine(l, rest);
      assert (l + rest)[..|l|] == l && (l + rest)[|l|..] == rest;
      Assoc(init, [l], SplitLines(rest));
      InitLast(lines);
    }
  }

  ghost predicate AllLines(lines: seq<string>) {
    forall i :: 0 <= i < |lines| ==> IsLine(lines[i])
  }

  lemma MakesLine(a: string, b: string)
    requires NoNewline(a) && NoNewline(b)
    ensures IsLine(a + b + "\n")
  {
    assert (a + b + "\n")[..|a + b|] == a + b;
  }

  lemma DecimalNoNewline(n: nat)
    ensures NoNewline(Decimal(n))
  {
    assert forall c :: c in Decimal(n) ==> IsDigit(c);
  }

  lemma HeaderIsLine(h: Header)
    ensures IsLine(HeaderText(h))
  {
    var d := Decimal(h.dstLen) + " @@\n";
    var c := "," + d;
    var b := " +" + (Decimal(h.dstPos) + c);
    var a := "," + (Decimal(h.srcLen) + b);
    DecimalNoNewline(h.dstLen);
    EndsLine(Decimal(h.dstLen), " @@\n");
    EndsLine(",", d);
    DecimalNoNewline(h.dstPos);
    EndsLine(Decimal(h.dstPos), c);
    EndsLine(" +", Decimal(h.dstPos) + c);
    DecimalNoNewline(h.srcLen);
    EndsLine(Decimal(h.srcLen), b);
    EndsLine(",", Decimal(h.srcLen) + b);
    DecimalNoNewline(h.srcPos);
    EndsLine(Decimal(h.srcPos), a);
    EndsLine("@@ -", Decimal(h.srcPos) + a);
  }

  lemma EndsLine(a: string, b: string)
    requires NoNewline(a) && IsLine(b)
    ensures IsLine(a + b)
  {
    assert (a + b)[..|a + b| - 1] == a + b[..|b| - 1];
  }

  lemma {:induction false} LinesAreLines(lines: seq<ChunkLine>)
    requires LinesOk(lines)
    ensures AllLines(LinesTexts(lines))
  {
    if lines != [] {
      LinesAreLines(lines[..|lines| - 1]);
      MakesLine(Sign(lines[|lines| - 1].kind), lines[|lines| - 1].text);
    }
  }

  lemma {:induction false} ChunksAreLines(chunks: seq<Chunk>)
    requires ChunksOk(chunks)
    ensures AllLines(ChunksTexts(chunks))
  {
    if chunks != [] {
      ChunksAreLines(chunks[..|chunks| - 1]);
      HeaderIsLine(HeaderOf(chunks[|chunks| - 1]));
      LinesAreLines(chunks[|chunks| - 1].lines);
    }
  }

  lemma {:induction false} PatchesAreLines(ps: seq<Patch>)
    requires PatchesOk(ps)
    ensures AllLines(PatchesTexts(ps))
  {
    if ps != [] {
      var p := ps[|ps| - 1];
      PatchesAreLines(ps[..|ps| - 1]);
      MakesLine("--- ", p.src);
      MakesLine("+++ ", p.dst);
      ChunksAreLines(p.chunks);
    }
  }

  // ---------------------------------------------------------------------------- the theorem

  datatype Result = Parsed(patchset: seq<Patch>) | ParseError

  function Parse(lines: seq<string>): Result {
    var st := ReadFrom(START, lines);
    if st.None? then ParseError else Parsed(st.value.patches)
  }

  predicate ReadingOk(r: Reading) {
    match r
    case NewPatch(src) => NoNewline(src)
    case SetDst(dst) => NoNewline(dst)
    case AddLine(l) => NoNewline(l.text)
    case _ => true
  }

  lemma AddToKeepsOk(ps: seq<Patch>, i: nat, j: nat, l: ChunkLine)
    requires PatchesOk(ps) && i < |ps| && j < |ps[i].chunks| && NoNewline(l.text)
    ensures PatchesOk(AddTo(ps, i, j, l))
  {
    assert LinesOk(ps[i].chunks[j].lines + [l]);
  }

  lemma ApplyKeepsOk(st: State, r: Reading)
    requires StateOk(st) && PatchesOk(st.patches) && ReadingOk(r) && Apply(st, r).Some?
    ensures PatchesOk(Apply(st, r).value.patches)
  {
    if r.AddLine? {
      AddToKeepsOk(st.patches, st.chunk.value.0, st.chunk.value.1, r.line);
    }
  }

  /** Whatever the text, no parsed field contains a newline. */
  lemma {:induction false} ParsedIsOk(lines: seq<string>)
    requires ReadFrom(START, lines).Some?
    ensures PatchesOk(ReadFrom(START, lines).value.patches)
  {
    if lines != [] {
      var init, line := lines[..|lines| - 1], lines[|lines| - 1];
      ParsedIsOk(init);
      assert ReadingOk(Read(line));
      ApplyKeepsOk(ReadFrom(START, init).value, Read(line));
    }
  }

  /** Patches survive writing and parsing exactly when no field contains a newline and no line is misleading. */
  lemma RoundTripIffClean(ps: seq<Patch>)
    ensures Parse(SplitLines(Concat(PatchesTexts(ps)))) == Parsed(ps) <==> PatchesOk(ps) && PatchesClean(ps)
  {
    if PatchesOk(ps) {
      OkRoundTrip(ps);
    } else if Parse(SplitLines(Concat(PatchesTexts(ps)))).Parsed? {
      ParsedIsOk(SplitLines(Concat(PatchesTexts(ps))));
    }
  }

  lemma OkRoundTrip(ps: seq<Patch>)
    requires PatchesOk(ps)
    ensures Parse(SplitLines(Concat(PatchesTexts(ps)))) == Parsed(ps) <==> PatchesClean(ps)
  {
    var lines := PatchesTexts(ps);
    PatchesAreLines(ps);
    SplitConcat(lines, "");
    assert Concat(lines) + "" == Concat(lines) && lines + [] == lines;
    if PatchesClean(ps) {
      PatchesReadBack(ps);
    } else if ReadFrom(START, lines).Some? {
      ReadCounts(START, lines);
      PatchesCounts(ps);
    }
  }

  /** A removed line whose text starts with two dashes and a space comes back as something else. */
  lemma MisleadingLineIsLost() returns (ps: seq<Patch>)
    ensures PatchesOk(ps) && Parse(SplitLines(Concat(PatchesTexts(ps)))) != Parsed(ps)
  {
    var l := ChunkLine(Src, "-- x");
    ps := [Patch("a", "b", [Chunk(1, 1, [l])])];
    assert "-- " <= l.text && Misleading(l);
    assert ps[0].chunks[0].lines[0] == l;
    assert !LinesClean(ps[0].chunks[0].lines);
    RoundTripIffClean(ps);
  }

  // ------------------------------------------------------------ projections and hunk counts

  /** s is t with some elements left out. */
  ghost predicate IsSubsequence<T>(s: seq<T>, t: seq<T>) {
    s == [] || (t != [] &&
    var rest := t[..|t| - 1];
    IsSubsequence(s, rest) || (s[|s| - 1] == t[|t| - 1] && IsSubsequence(s[..|s| - 1], rest)))
  }

  lemma SubsequenceGrows<T>(s: seq<T>, t: seq<T>, x: T)
    requires IsSubsequence(s, t)
    ensures IsSubsequence(s, t + [x]) && IsSubsequence(s + [x], t + [x])
  {
    AppendInit(t, x);
    AppendInit(s, x);
  }

  /** The source side keeps, in order and as often as they occur, all lines but the added ones. */
  lemma {:induction false} SourceSide(lines: seq<ChunkLine>, l: ChunkLine)
    ensures IsSubsequence(SrcLines(lines), lines)
    ensures multiset(SrcLines(lines))[l] == if l.kind == Dst then 0 else multiset(lines)[l]
  {
    if lines != [] {
      var init, last := lines[..|lines| - 1], lines[|lines| - 1];
      SourceSide(init, l);
      SubsequenceGrows(SrcLines(init), init, last);
      InitLast(lines);
      AppendCounts(init, last, l);
      AppendCounts(SrcLines(init), last, l);
    }
  }

  /** The destination side keeps all lines but the removed ones. */
  lemma {:induction false} DestinationSide(lines: seq<ChunkLine>, l: ChunkLine)
    ensures IsSubsequence(DstLines(lines), lines)
    ensures multiset(DstLines(lines))[l] == if l.kind == Src then 0 else multiset(lines)[l]
  {
    if lines != [] {
      var init, last := lines[..|lines| - 1], lines[|lines| - 1];
      DestinationSide(init, l);
      SubsequenceGrows(DstLines(init), init, last);
      InitLast(lines);
      AppendCounts(init, last, l);
      AppendCounts(DstLines(init), last, l);
    }
  }

  lemma AppendCounts(s: seq<ChunkLine>, x: ChunkLine, l: ChunkLine)
    ensures multiset(s + [x])[l] == multiset(s)[l] + if x == l then 1 else 0
  {
  }

  /** How many lines start with this character. */
  ghost function StartingWith(lines: seq<string>, c: char): nat {
    if lines == [] then 0 else
      var l := lines[|lines| - 1];
      StartingWith(lines[..|lines| - 1], c) + if l != "" && l[0] == c then 1 else 0
  }

  /** The counts in a header are those of the written lines that belong to either side. */
  lemma {:induction false} HunkCounts(lines: seq<ChunkLine>)
    ensures |SrcLines(lines)| == StartingWith(LinesTexts(lines), '-') + StartingWith(LinesTexts(lines), ' ')
    ensures |DstLines(lines)| == StartingWith(LinesTexts(lines), '+') + StartingWith(LinesTexts(lines), ' ')
  {
    if lines != [] {
      var init, last := lines[..|lines| - 1], lines[|lines| - 1];
      HunkCounts(init);
      AppendInit(LinesTexts(init), LineText(last));
      assert LineText(last)[0] == match last.kind case Src => '-' case Dst => '+' case Both => ' ';
    }
  }

  /** A small chunk, and the lines it is written as. */
  lemma SmallChunkIsWritten() returns (c: Chunk)
    ensures c == Chunk(3, 5, [ChunkLine(Src, "a"), ChunkLine(Both, "b"), ChunkLine(Dst, "c"), ChunkLine(Dst, "d")])
    ensures ChunkTexts(c) == ["@@ -3,2 +5,3 @@\n", "-a\n", " b\n", "+c\n", "+d\n"]
  {
    var w, x, y, z := ChunkLine(Src, "a"), ChunkLine(Both, "b"), ChunkLine(Dst, "c"), ChunkLine(Dst, "d");
    c := Chunk(3, 5, [w, x, y, z]);
    FourLines(w, x, y, z);
    assert LineText(w) == "-a\n" && LineText(x) == " b\n" && LineText(y) == "+c\n" && LineText(z) == "+d\n";
    SmallHeader(HeaderOf(c));
  }

  lemma FourLines(w: ChunkLine, x: ChunkLine, y: ChunkLine, z: ChunkLine)
    requires w.kind == Src && x.kind == Both && y.kind == z.kind == Dst
    ensures LinesTexts([w, x, y, z]) == [LineText(w), LineText(x), LineText(y), LineText(z)]
    ensures |SrcLines([w, x, y, z])| == 2 && |DstLines([w, x, y, z])| == 3
  {
    OneMoreLine([], w);
    OneMoreLine([w], x);
    OneMoreLine([w, x], y);
    OneMoreLine([w, x, y], z);
    assert [] + [w] == [w] && [w] + [x] == [w, x] && [w, x] + [y] == [w, x, y] && [w, x, y] + [z] == [w, x, y, z];
  }

  lemma OneMoreLine(lines: seq<ChunkLine>, l: ChunkLine)
    ensures LinesTexts(lines + [l]) == LinesTexts(lines) + [LineText(l)]
    ensures |SrcLines(lines + [l])| == |SrcLines(lines)| + if l.kind == Dst then 0 else 1
    ensures |DstLines(lines + [l])| == |DstLines(lines)| + if l.kind == Src then 0 else 1
  {
    AppendInit(lines, l);
  }

  lemma SmallHeader(h: Header)
    requires h == Header(3, 2, 5, 3)
    ensures HeaderText(h) == "@@ -3,2 +5,3 @@\n"
  {
    assert Decimal(3) == "3" && Decimal(2) == "2" && Decimal(5) == "5";
  }

  // ---------------------------------------------------------------- other texts than written

  /** A line matches with a given rest iff it is the prefix and that rest, with or without a newline behind. */
  lemma AfterIff(prefix: string, line: string, s: string)
    ensures After(prefix, line) == Some(s) <==> NoNewline(s) && (line == prefix + s || line == prefix + s + "\n")
  {
    if prefix <= line {
      var rest := line[|prefix|..];
      assert line == prefix + rest;
      if Chomp(rest) != rest {
        assert rest == Chomp(rest) + "\n" && line == prefix + Chomp(rest) + "\n";
      }
    }
    if NoNewline(s) && line == prefix + s {
      PrefixDrop(prefix, s);
      assert s != "" ==> s[|s| - 1] in s;
    }
    if NoNewline(s) && line == prefix + s + "\n" {
      AfterReads(prefix, s);
    }
  }

  /** What stands behind the second pair of at-signs is ignored. */
  lemma HeaderTailIgnored(h: Header, tail: string)
    ensures ReadHeader("@@ -" + (Decimal(h.srcPos) + ("," + (Decimal(h.srcLen)
      + (" +" + (Decimal(h.dstPos) + ("," + (Decimal(h.dstLen) + (" @@" + tail))))))))) == Some(h)
  {
    var e := " @@" + tail;
    var d := "," + (Decimal(h.dstLen) + e);
    var c := " +" + (Decimal(h.dstPos) + d);
    var b := "," + (Decimal(h.srcLen) + c);
    NumberRead("@@ -", h.srcPos, b);
    NumberRead(",", h.srcLen, c);
    NumberRead(" +", h.dstPos, d);
    NumberRead(",", h.dstLen, e);
  }

  /** A patch without its second line has no destination; a line goes to the last chunk, be it of an earlier patch. */
  lemma LateLine(a: string, b: string, i: nat, j: nat, l: ChunkLine)
    ensures ApplyAll([NewPatch(a), NewChunk(i, j), NewPatch(b), AddLine(l)]).Some?
    ensures ApplyAll([NewPatch(a), NewChunk(i, j), NewPatch(b), AddLine(l)]).value.patches ==
      [Patch(a, "", [Chunk(i, j, [l])]), Patch(b, "", [])]
  {
    var c, p, q := Chunk(i, j, []), Patch(a, "", []), Patch(b, "", []);
    var with, full := p.(chunks := [c]), p.(chunks := [c.(lines := [l])]);
    var one, two, three := [NewPatch(a)], [NewPatch(a), NewChunk(i, j)], [NewPatch(a), NewChunk(i, j), NewPatch(b)];
    assert [] + one == one && one + [NewChunk(i, j)] == two && two + [NewPatch(b)] == three;
    assert three + [AddLine(l)] == [NewPatch(a), NewChunk(i, j), NewPatch(b), AddLine(l)];
    assert [] + [p] == [p] && [] + [c] == [c] && [p][0 := with] == [with] && [with] + [q] == [with, q];
    assert [] + [l] == [l] && [c][0 := c.(lines := [l])] == full.chunks && [with, q][0 := full] == [full, q];
    ApplyOneMore([], NewPatch(a), START, State([p], None));
    ApplyOneMore(one, NewChunk(i, j), State([p], None), State([with], Some((0, 0))));
    ApplyOneMore(two, NewPatch(b), State([with], Some((0, 0))), State([with, q], Some((0, 0))));
    ApplyOneMore(three, AddLine(l), State([with, q], Some((0, 0))), State([full, q], Some((0, 0))));
  }

  lemma ApplyOneMore(rs: seq<Reading>, r: Reading, st: State, next: State)
    requires ApplyAll(rs) == Some(st) && StateOk(st) && Apply(st, r) == Some(next)
    ensures ApplyAll(rs + [r]) == Some(next)
  {
    AppendInit(rs, r);
  }

  // ------------------------------------------------------------------- when parsing raises

  ghost function ReadingsOf(lines: seq<string>): seq<Reading> {
    if lines == [] then [] else ReadingsOf(lines[..|lines| - 1]) + [Read(lines[|lines| - 1])]
  }

  ghost function ApplyAll(rs: seq<Reading>): (r: Option<State>)
    ensures r.Some? ==> StateOk(r.value)
  {
    if rs == [] then Some(START) else
      var before := ApplyAll(rs[..|rs| - 1]);
      if before.None? then None else Apply(before.value, rs[|rs| - 1])
  }

  lemma {:induction false} ReadingsApplied(lines: seq<string>)
    ensures ReadFrom(START, lines) == ApplyAll(ReadingsOf(lines))
  {
    if lines != [] {
      var init, r := lines[..|lines| - 1], Read(lines[|lines| - 1]);
      ReadingsApplied(init);
      AppendInit(ReadingsOf(init), r);
    }
  }

  ghost predicate HasPatch(rs: seq<Reading>) {
    exists j :: 0 <= j < |rs| && rs[j].NewPatch?
  }

  ghost predicate HasChunk(rs: seq<Reading>) {
    exists j :: 0 <= j < |rs| && rs[j].NewChunk?
  }

  /** Line i raises: it matches nothing, or there is no patch or no chunk yet that it could go to. */
  ghost predicate Raises(rs: seq<Reading>, i: nat)
    requires i < |rs|
  {
    match rs[i]
    case NewPatch(_) => false
    case SetDst(_) => !HasPatch(rs[..i])
    case NewChunk(_, _) => !HasPatch(rs[..i])
    case AddLine(_) => !HasChunk(rs[..i])
    case NoMatch => true
  }

  lemma {:induction false} AppliedKnow(rs: seq<Reading>)
    requires ApplyAll(rs).Some?
    ensures ApplyAll(rs).value.patches != [] <==> HasPatch(rs)
    ensures ApplyAll(rs).value.chunk.Some? <==> HasChunk(rs)
  {
    if rs != [] {
      var init, r := rs[..|rs| - 1], rs[|rs| - 1];
      AppliedKnow(init);
      HasGrows(init, r);
      InitLast(rs);
    }
  }

  lemma HasGrows(rs: seq<Reading>, r: Reading)
    ensures HasPatch(rs + [r]) <==> HasPatch(rs) || r.NewPatch?
    ensures HasChunk(rs + [r]) <==> HasChunk(rs) || r.NewChunk?
  {
    var more := rs + [r];
    assert more[|rs|] == r && forall j :: 0 <= j < |rs| ==> more[j] == rs[j];
  }

  lemma {:induction false} ApplyFailsIff(rs: seq<Reading>)
    ensures ApplyAll(rs).None? <==> exists i :: 0 <= i < |rs| && Raises(rs, i)
  {
    if rs != [] {
      var k := |rs| - 1;
      var init := rs[..k];
      ApplyFailsIff(init);
      forall i | 0 <= i < k ensures Raises(init, i) <==> Raises(rs, i) {
        PrefixOfPrefix(rs, k, i);
      }
      if ApplyAll(init).Some? {
        AppliedKnow(init);
        assert ApplyAll(rs).None? <==> Raises(rs, k);
      }
    }
  }

  /** Parsing fails exactly when some line matches nothing or comes before what it belongs to. */
  lemma ParseFailsIff(lines: seq<string>)
    ensures Parse(lines).ParseError? <==>
      exists i :: 0 <= i < |ReadingsOf(lines)| && Raises(ReadingsOf(lines), i)
  {
    ReadingsApplied(lines);
    ApplyFailsIff(ReadingsOf(lines));
  }

  // ---------------------------------------------------------------------- writer and parser

  /** Lines 254-263 and 264-273: the lines of one side. */
  method ProjectSrc(lines: seq<ChunkLine>) returns (src: seq<ChunkLine>)
    ensures src == SrcLines(lines)
  {
    src := [];
    for i := 0 to |lines|
      invariant src == SrcLines(lines[..i])
    {
      assert lines[..i + 1][..i] == lines[..i];
      if IsSrc(lines[i]) {
        src := src + [lines[i]];
      }
    }
    assert lines[..|lines|] == lines;
  }

  method ProjectDst(lines: seq<ChunkLine>) returns (dst: seq<ChunkLine>)
    ensures dst == DstLines(lines)
  {
    dst := [];
    for i := 0 to |lines|
      invariant dst == DstLines(lines[..i])
    {
      assert lines[..i + 1][..i] == lines[..i];
      if IsDst(lines[i]) {
        dst := dst + [lines[i]];
      }
    }
    assert lines[..|lines|] == lines;
  }

  lemma {:induction false} ConcatConcat(a: seq<string>, b: seq<string>)
    ensures Concat(a + b) == Concat(a) + Concat(b)
  {
    if b == [] {
      assert a + b == a;
    } else {
      ConcatConcat(a, b[..|b| - 1]);
      ConcatInit(a, b);
      Assoc(Concat(a), Concat(b[..|b| - 1]), b[|b| - 1]);
    }
  }

  lemma ConcatOne(a: string)
    ensures Concat([a]) == a
  {
    assert [a][..0] == [];
  }

  method WriteChunk(c: Chunk, f: string) returns (f': string)
    ensures f' == f + Concat(ChunkTexts(c))
  {
    var src := ProjectSrc(c.lines);
    var dst := ProjectDst(c.lines);
    var header := HeaderText(Header(c.srcPos, |src|, c.dstPos, |dst|));
    f' := f + header;
    ConcatOne(header);
    ConcatConcat([header], LinesTexts(c.lines));
    for i := 0 to |c.lines|
      invariant f' == f + header + Concat(LinesTexts(c.lines[..i]))
    {
      assert c.lines[..i + 1][..i] == c.lines[..i];
      ConcatOne(LineText(c.lines[i]));
      ConcatConcat(LinesTexts(c.lines[..i]), [LineText(c.lines[i])]);
      Assoc(f + header, Concat(LinesTexts(c.lines[..i])), LineText(c.lines[i]));
      f' := f' + LineText(c.lines[i]);
    }
    assert c.lines[..|c.lines|] == c.lines;
    Assoc(f, header, Concat(LinesTexts(c.lines)));
  }

  method WritePatch(p: Patch, f: string) returns (f': string)
    ensures f' == f + Concat(PatchTexts(p))
  {
    var a, b := "--- " + p.src + "\n", "+++ " + p.dst + "\n";
    f' := f + a;
    f' := f' + b;
    ghost var files := f';
    for i := 0 to |p.chunks|
      invariant f' == files + Concat(ChunksTexts(p.chunks[..i]))
    {
      ChunksTextsStep(files, p.chunks, i);
      f' := WriteChunk(p.chunks[i], f');
    }
    assert p.chunks[..|p.chunks|] == p.chunks;
    PatchTextIs(f, a, b, ChunksTexts(p.chunks));
  }

  lemma ChunksTextsStep(f: string, chunks: seq<Chunk>, i: nat)
    requires i < |chunks|
    ensures f + Concat(ChunksTexts(chunks[..i + 1])) ==
      f + Concat(ChunksTexts(chunks[..i])) + Concat(ChunkTexts(chunks[i]))
  {
    assert chunks[..i + 1][..i] == chunks[..i];
    ConcatConcat(ChunksTexts(chunks[..i]), ChunkTexts(chunks[i]));
    Assoc(f, Concat(ChunksTexts(chunks[..i])), Concat(ChunkTexts(chunks[i])));
  }

  lemma PatchTextIs(f: string, a: string, b: string, rest: seq<string>)
    ensures f + Concat([a, b] + rest) == f + a + b + Concat(rest)
  {
    ConcatOne(a);
    ConcatOne(b);
    ConcatConcat([a], [b]);
    assert [a] + [b] == [a, b];
    ConcatConcat([a, b], rest);
    Assoc(f, a, b);
    Assoc(f, a + b, Concat(rest));
  }

  lemma {:induction false} OnceFailed(lines: seq<string>, k: nat)
    requires k <= |lines| && ReadFrom(START, lines[..k]).None?
    ensures ReadFrom(START, lines).None?
    decreases |lines|
  {
    if k == |lines| {
      assert lines[..k] == lines;
    } else {
      assert lines[..|lines| - 1][..k] == lines[..k];
      OnceFailed(lines[..|lines| - 1], k);
    }
  }

  /** Lines 366-403. The current patch is the last; the current chunk is remembered by its place. */
  method ParsePatchset(lines: seq<string>) returns (r: Result)
    ensures r == Parse(lines)
  {
    var patchset: seq<Patch> := [];
    var currentChunk: Option<(nat, nat)> := None;
    for n := 0 to |lines|
      invariant StateOk(State(patchset, currentChunk))
      invariant ReadFrom(START, lines[..n]) == Some(State(patchset, currentChunk))
    {
      assert lines[..n + 1][..n] == lines[..n];
      var reading := Match(lines[n]);
      var ok;
      ok, patchset, currentChunk := Take(patchset, currentChunk, reading);
      if !ok {
        OnceFailed(lines, n + 1);
        return ParseError;
      }
    }
    assert lines[..|lines|] == lines;
    return Parsed(patchset);
  }

  /** Lines 369-402: try the regular expressions in turn. */
  method Match(line: string) returns (r: Reading)
    ensures r == Read(line)
  {
    var m := After("--- ", line);
    if m.Some? {
      return NewPatch(m.value);
    }
    m := After("+++ ", line);
    if m.Some? {
      return SetDst(m.value);
    }
    var h := ReadHeader(line);
    if h.Some? {
      return NewChunk(h.value.srcPos, h.value.dstPos);
    }
    m := After("-", line);
    if m.Some? {
      return AddLine(ChunkLine(Src, m.value));
    }
    m := After("+", line);
    if m.Some? {
      return AddLine(ChunkLine(Dst, m.value));
    }
    m := After(" ", line);
    if m.Some? {
      return AddLine(ChunkLine(Both, m.value));
    }
    return NoMatch;
  }

  /** What a line does to the patches; the result is false where the parser raises. */
  method Take(patchset: seq<Patch>, currentChunk: Option<(nat, nat)>, reading: Reading)
    returns (ok: bool, patchset': seq<Patch>, currentChunk': Option<(nat, nat)>)
    requires StateOk(State(patchset, currentChunk))
    ensures Apply(State(patchset, currentChunk), reading) == if ok then Some(State(patchset', currentChunk')) else None
  {
    ok, patchset', currentChunk' := true, patchset, currentChunk;
    var k := |patchset| - 1;
    match reading
    case NewPatch(src) =>
      patchset' := patchset + [Patch(src, "", [])];
    case SetDst(dst) =>
      if k < 0 {
        return false, patchset, currentChunk;
      }
      patchset' := patchset[k := patchset[k].(dst := dst)];
    case NewChunk(srcPos, dstPos) =>
      if k < 0 {
        return false, patchset, currentChunk;
      }
      var p := patchset[k];
      patchset' := patchset[k := p.(chunks := p.chunks + [Chunk(srcPos, dstPos, [])])];
      currentChunk' := Some((k, |p.chunks|));
    case AddLine(l) =>
      if currentChunk.None? {
        return false, patchset, currentChunk;
      }
      var (i, j) := currentChunk.value;
      patchset' := AddTo(patchset, i, j, l);
    case NoMatch =>
      return false, patchset, currentChunk;
  }
}
