/** The text-art drawings: the reader, the printer, and the overlay of one drawing on another. Text is
    a sequence of decoded runes. */
module TextArt {
  import opened Bytes
  import opened Canvas
  import opened Palette
  import opened Shapes

  type Cell = (int, int)

  datatype Blueprint = Blueprint(w: nat, h: nat, placements: seq<Placement>)

  datatype Error =
    | BadToken(tok: string)
    | Reserved(c: char)
    | BadColor(c: char)
    | NoEntry(line: nat, col: nat, c: char)

  datatype Result<+T> = Ok(value: T) | Err(error: Error)

  // ---- Cells ----

  /** What a drawing shows: at each cell the last placement wins. */
  function CellsOf(ps: seq<Placement>): map<Cell, byte> {
    if ps == [] then map[]
    else
      var p := ps[|ps| - 1];
      CellsOf(ps[..|ps| - 1])[(p.x, p.y) := p.color]
  }

  /** The cells of the box [0, w) x [0, h). */
  function Clip(cells: map<Cell, byte>, w: int, h: int): map<Cell, byte> {
    map c | c in cells && 0 <= c.0 < w && 0 <= c.1 < h :: cells[c]
  }

  predicate Shows(cells: map<Cell, byte>, p: Placement) {
    (p.x, p.y) in cells && cells[(p.x, p.y)] == p.color
  }

  lemma {:induction false} CellsOfConcat(a: seq<Placement>, b: seq<Placement>)
    ensures CellsOf(a + b) == CellsOf(a) + CellsOf(b)
  {
    if b == [] {
      assert a + b == a;
    } else {
      var n := |b| - 1;
      assert (a + b)[..|a + b| - 1] == a + b[..n];
      CellsOfConcat(a, b[..n]);
    }
  }

  /** Where no cell repeats, the placements and the cells say the same. */
  lemma {:induction false} CellsOfScanline(ps: seq<Placement>, p: Placement)
    requires Scanline(ps)
    ensures p in ps <==> Shows(CellsOf(ps), p)
  {
    if ps != [] {
      var n := |ps| - 1;
      var last := ps[n];
      assert ps == ps[..n] + [last];
      CellsOfScanline(ps[..n], p);
      if (p.x, p.y) == (last.x, last.y) {
        assert forall i :: 0 <= i < n ==> Before(ps[i], last);
        assert p !in ps[..n];
      }
    }
  }

  /** Scanline order leaves one way to list a set of placements. */
  lemma {:induction false} ScanlineOnlyOne(a: seq<Placement>, b: seq<Placement>)
    requires Scanline(a) && Scanline(b)
    requires forall p :: p in a <==> p in b
    ensures a == b
  {
    SameMembersEmpty(a, b);
    if a != [] {
      var m, n := |a| - 1, |b| - 1;
      assert a[m] in b && b[n] in a;
      assert a[m] == b[n];
      assert forall p :: p in a[..m] <==> p in a && p != a[m];
      assert forall p :: p in b[..n] <==> p in b && p != b[n];
      ScanlineOnlyOne(a[..m], b[..n]);
      assert a == a[..m] + [a[m]] && b == b[..n] + [b[n]];
    }
  }

  lemma SameMembersEmpty<T>(a: seq<T>, b: seq<T>)
    requires forall p :: p in a <==> p in b
    ensures a == [] <==> b == []
  {
    if a != [] {
      assert a[0] in b;
    }
    if b != [] {
      assert b[0] in a;
    }
  }

  // ---- Lines and fields ----

  /** strings.Split at newlines. */
  function Lines(s: string): (r: seq<string>)
    ensures |r| > 0
  {
    if s == "" then [""]
    else if s[0] == '\n' then [""] + Lines(s[1..])
    else
      var r := Lines(s[1..]);
      [[s[0]] + r[0]] + r[1..]
  }

  lemma {:induction false} LinesOfLine(line: string, rest: string)
    requires '\n' !in line
    ensures Lines(line + "\n" + rest) == [line] + Lines(rest)
  {
    var s := line + "\n" + rest;
    if line == "" {
      assert s[1..] == rest;
    } else {
      assert s[1..] == line[1..] + "\n" + rest;
      LinesOfLine(line[1..], rest);
      assert line == [line[0]] + line[1..];
    }
  }

  function TrimCarriage(line: string): string {
    if |line| > 0 && line[|line| - 1] == '\r' then line[..|line| - 1] else line
  }

  /** unicode.IsSpace. */
  predicate Space(c: char) {
    || '\t' <= c <= '\r' || c == ' ' || c == '\U{85}' || c == '\U{A0}' || c == '\U{1680}'
    || '\U{2000}' <= c <= '\U{200A}' || c == '\U{2028}' || c == '\U{2029}' || c == '\U{202F}'
    || c == '\U{205F}' || c == '\U{3000}'
  }

  function WordEnd(s: string): (n: nat)
    ensures n <= |s|
    ensures forall i :: 0 <= i < n ==> !Space(s[i])
    ensures n < |s| ==> Space(s[n])
  {
    if s == "" || Space(s[0]) then 0 else 1 + WordEnd(s[1..])
  }

  /** strings.Fields: the maximal runs without space; trimming the ends first changes nothing. */
  function Fields(s: string): seq<string>
    decreases |s|
  {
    if s == "" then []
    else if Space(s[0]) then Fields(s[1..])
    else
      var n := WordEnd(s);
      [s[..n]] + Fields(s[n..])
  }

  lemma {:induction false} WordEndsAtSpace(word: string, rest: string)
    requires forall i :: 0 <= i < |word| ==> !Space(word[i])
    requires rest == "" || Space(rest[0])
    ensures WordEnd(word + rest) == |word|
  {
    if word == "" {
      assert word + rest == rest;
    } else {
      assert (word + rest)[1..] == word[1..] + rest;
      WordEndsAtSpace(word[1..], rest);
    }
  }

  lemma FieldsOfWord(word: string, rest: string)
    requires word != "" && forall i :: 0 <= i < |word| ==> !Space(word[i])
    requires rest == "" || Space(rest[0])
    ensures Fields(word + rest) == [word] + Fields(rest)
  {
    var s := word + rest;
    WordEndsAtSpace(word, rest);
    assert s[0] == word[0];
    assert s[..|word|] == word && s[|word|..] == rest;
  }

  // ---- The reader ----

  const LEGEND := "legend:"

  type Legend = map<char, byte>

  predicate Skip(c: char) {
    c == '.' || c == ' '
  }

  /** One token c=#rrggbb; the code wants '=' as the second byte, so c is a single byte and not '='. */
  function ParseToken(tok: string): Result<(char, byte)> {
    if |tok| < 3 || tok[0] == '=' || tok[0] >= '\U{80}' || tok[1] != '=' then Err(BadToken(tok))
    else if Skip(tok[0]) then Err(Reserved(tok[0]))
    else
      match PaletteColor(tok[2..])
      case None => Err(BadColor(tok[0]))
      case Some(color) => Ok((tok[0], color))
  }

  /** Later tokens for the same rune win; the first bad token decides the error. */
  function ParseTokens(toks: seq<string>, legend: Legend): Result<Legend> {
    if toks == [] then Ok(legend)
    else
      match ParseToken(toks[0])
      case Err(e) => Err(e)
      case Ok(entry) => ParseTokens(toks[1..], legend[entry.0 := entry.1])
  }

  /** The file cut into its optional legend and its rows. */
  datatype Sheet = Sheet(legend: Option<string>, rows: seq<string>)

  function SheetOf(data: string): Sheet {
    var lines := Lines(data);
    var raw := if lines[|lines| - 1] == "" then lines[..|lines| - 1] else lines;
    if |raw| > 0 && LEGEND <= raw[0] then Sheet(Some(raw[0][|LEGEND|..]), raw[1..]) else Sheet(None, raw)
  }

  function LegendOf(sheet: Sheet): Result<Legend> {
    if sheet.legend.Some? then ParseTokens(Fields(sheet.legend.value), map[]) else Ok(map[])
  }

  function Row(rows: seq<string>, y: nat): string
    requires y < |rows|
  {
    TrimCarriage(rows[y])
  }

  predicate Known(legend: Legend, c: char) {
    c == '.' || c == ' ' || c in legend
  }

  /** Cell (x, y) is read before cell (x1, y1). */
  predicate Earlier(x: int, y: int, x1: int, y1: int) {
    y < y1 || (y == y1 && x < x1)
  }

  ghost predicate KnownBefore(rows: seq<string>, legend: Legend, x1: int, y1: int) {
    forall x, y :: 0 <= y < |rows| && 0 <= x < |Row(rows, y)| && Earlier(x, y, x1, y1) ==> Known(legend, Row(rows, y)[x])
  }

  predicate Inks(rows: seq<string>, legend: Legend, p: Placement) {
    && 0 <= p.y < |rows|
    && 0 <= p.x < |Row(rows, p.y)|
    && var c := Row(rows, p.y)[p.x];
       c != '.' && c != ' ' && c in legend && legend[c] == p.color
  }

  ghost predicate Widest(rows: seq<string>, n: nat, w: nat)
    requires n <= |rows|
  {
    && (forall y :: 0 <= y < n ==> |Row(rows, y)| <= w)
    && (w > 0 ==> exists y :: 0 <= y < n && |Row(rows, y)| == w)
  }

  /** `bp` is the drawing of `rows`: every rune known, one placement for each inked rune, in order. */
  ghost predicate Drawing(rows: seq<string>, legend: Legend, bp: Blueprint) {
    && KnownBefore(rows, legend, 0, |rows|)
    && bp.h == |rows|
    && Widest(rows, |rows|, bp.w)
    && Scanline(bp.placements)
    && forall p :: p in bp.placements <==> Inks(rows, legend, p)
  }

  /** `e` reports the first unknown rune in reading order, with its 1-based position in the file. */
  ghost predicate FirstUnknown(rows: seq<string>, lineOffset: nat, legend: Legend, e: Error) {
    && e.NoEntry?
    && var y, x := e.line - 1 - lineOffset, e.col - 1;
       && 0 <= y < |rows| && 0 <= x < |Row(rows, y)|
       && Row(rows, y)[x] == e.c && !Known(legend, e.c)
       && KnownBefore(rows, legend, x, y)
  }

  /** What reading `data` may give. */
  ghost predicate Parsed(data: string, r: Result<Blueprint>) {
    var sheet := SheetOf(data);
    match LegendOf(sheet)
    case Err(e) => r == Err(e)
    case Ok(legend) =>
      match r
      case Ok(bp) => Drawing(sheet.rows, legend, bp)
      case Err(e) => FirstUnknown(sheet.rows, if sheet.legend.Some? then 1 else 0, legend, e)
  }

  /** Every text reads as one thing only. */
  lemma ParsedOnlyOne(data: string, a: Result<Blueprint>, b: Result<Blueprint>)
    requires Parsed(data, a) && Parsed(data, b)
    ensures a == b
  {
    var sheet := SheetOf(data);
    if LegendOf(sheet).Ok? {
      var rows, legend := sheet.rows, LegendOf(sheet).value;
      var off := if sheet.legend.Some? then 1 else 0;
      NoneUnknown(rows, legend, off);
      if a.Ok? {
        DrawingOnlyOne(rows, legend, a.value, b.value);
      } else {
        FirstOnlyOne(rows, legend, off, a.error, b.error);
      }
    }
  }

  lemma DrawingOnlyOne(rows: seq<string>, legend: Legend, a: Blueprint, b: Blueprint)
    requires Drawing(rows, legend, a) && Drawing(rows, legend, b)
    ensures a == b
  {
    hide Inks, KnownBefore;
    assert a.w <= b.w && b.w <= a.w;
    ScanlineOnlyOne(a.placements, b.placements);
  }

  lemma UnknownSpoils(rows: seq<string>, legend: Legend, off: nat, e: Error)
    requires FirstUnknown(rows, off, legend, e)
    ensures !KnownBefore(rows, legend, 0, |rows|)
  {
    var y, x := e.line - 1 - off, e.col - 1;
    assert Earlier(x, y, 0, |rows|) && !Known(legend, Row(rows, y)[x]);
  }

  lemma NoneUnknown(rows: seq<string>, legend: Legend, off: nat)
    ensures KnownBefore(rows, legend, 0, |rows|) ==> forall e :: !FirstUnknown(rows, off, legend, e)
  {
    forall e
      ensures FirstUnknown(rows, off, legend, e) ==> !KnownBefore(rows, legend, 0, |rows|)
    {
      if FirstUnknown(rows, off, legend, e) {
        UnknownSpoils(rows, legend, off, e);
      }
    }
  }

  lemma FirstOnlyOne(rows: seq<string>, legend: Legend, off: nat, a: Error, b: Error)
    requires FirstUnknown(rows, off, legend, a) && FirstUnknown(rows, off, legend, b)
    ensures a == b
  {
    var y1, x1, y2, x2 := a.line - 1 - off, a.col - 1, b.line - 1 - off, b.col - 1;
    assert !Earlier(x1, y1, x2, y2) by {
      assert !Known(legend, Row(rows, y1)[x1]);
    }
    assert !Earlier(x2, y2, x1, y1) by {
      assert !Known(legend, Row(rows, y2)[x2]);
    }
  }

  /** Scans the legend line token by token. */
  method ParseLegend(text: string) returns (r: Result<Legend>)
    ensures r == ParseTokens(Fields(text), map[])
  {
    var legend: Legend := map[];
    var toks := Fields(text);
    for i := 0 to |toks|
      invariant ParseTokens(toks[i..], legend) == ParseTokens(toks, map[])
    {
      var entry := ParseToken(toks[i]);
      assert toks[i..][1..] == toks[i + 1..];
      match entry {
        case Err(e) => return Err(e);
        case Ok(pair) => legend := legend[pair.0 := pair.1];
      }
    }
    return Ok(legend);
  }

  /** The placements of the runes read before (x1, y1), in order. */
  ghost predicate ReadBefore(rows: seq<string>, legend: Legend, x1: int, y1: int, ps: seq<Placement>) {
    && KnownBefore(rows, legend, x1, y1)
    && Scanline(ps)
    && forall p :: p in ps <==> Inks(rows, legend, p) && Earlier(p.x, p.y, x1, y1)
  }

  lemma ReadRune(rows: seq<string>, legend: Legend, x: nat, y: nat, ps: seq<Placement>)
    requires y < |rows| && x < |Row(rows, y)| && ReadBefore(rows, legend, x, y, ps)
    requires Known(legend, Row(rows, y)[x])
    ensures var c := Row(rows, y)[x];
            ReadBefore(rows, legend, x + 1, y, if Skip(c) then ps else ps + [Placement(x, y, legend[c])])
  {
    var c := Row(rows, y)[x];
    forall u, v | 0 <= v < |rows| && 0 <= u < |Row(rows, v)| && Earlier(u, v, x + 1, y)
      ensures Known(legend, Row(rows, v)[u])
    {
      assert (u, v) == (x, y) || Earlier(u, v, x, y);
    }
    if !Skip(c) {
      var q := Placement(x, y, legend[c]);
      assert forall p :: p in ps + [q] <==> p in ps || p == q;
      forall i | 0 <= i < |ps|
        ensures Before(ps[i], q)
      {
        assert ps[i] in ps;
      }
    }
  }

  lemma ReadLine(rows: seq<string>, legend: Legend, y: nat, ps: seq<Placement>)
    requires y < |rows| && ReadBefore(rows, legend, |Row(rows, y)|, y, ps)
    ensures ReadBefore(rows, legend, 0, y + 1, ps)
  {
    forall u, v | 0 <= v < |rows| && 0 <= u < |Row(rows, v)| && Earlier(u, v, 0, y + 1)
      ensures Known(legend, Row(rows, v)[u])
    {
      assert Earlier(u, v, |Row(rows, y)|, y);
    }
  }

  method ParseTextArt(data: string) returns (r: Result<Blueprint>)
    ensures Parsed(data, r)
  {
    hide ReadBefore, Widest;
    var raw := Lines(data);
    if raw[|raw| - 1] == "" {
      raw := raw[..|raw| - 1];
    }
    var lineOffset := 0;
    var legend: Legend := map[];
    if |raw| > 0 && LEGEND <= raw[0] {
      var parsed := ParseLegend(raw[0][|LEGEND|..]);
      if parsed.Err? {
        return Err(parsed.error);
      }
      legend := parsed.value;
      raw := raw[1..];
      lineOffset := 1;
    }
    r := ParseRows(raw, lineOffset, legend);
  }

  method ParseRows(raw: seq<string>, lineOffset: nat, legend: Legend) returns (r: Result<Blueprint>)
    ensures r.Ok? ==> Drawing(raw, legend, r.value)
    ensures r.Err? ==> FirstUnknown(raw, lineOffset, legend, r.error)
  {
    hide Inks, Scanline;
    var w: nat, ps: seq<Placement> := 0, [];
    NothingRead(raw, legend);
    for li := 0 to |raw|
      invariant ReadBefore(raw, legend, 0, li, ps)
      invariant Widest(raw, li, w)
    {
      var line := TrimCarriage(raw[li]);
      for x := 0 to |line|
        invariant ReadBefore(raw, legend, x, li, ps)
      {
        var c := line[x];
        if !Known(legend, c) {
          return Err(NoEntry(li + 1 + lineOffset, x + 1, c));
        }
        ReadRune(raw, legend, x, li, ps);
        if !Skip(c) {
          ps := ps + [Placement(x, li, legend[c])];
        }
      }
      ReadLine(raw, legend, li, ps);
      WidestNext(raw, li, w);
      if |line| > w {
        w := |line|;
      }
    }
    ReadAll(raw, legend, ps);
    return Ok(Blueprint(w, |raw|, ps));
  }

  lemma NothingRead(rows: seq<string>, legend: Legend)
    ensures ReadBefore(rows, legend, 0, 0, [])
  {}

  lemma WidestNext(rows: seq<string>, n: nat, w: nat)
    requires n < |rows| && Widest(rows, n, w)
    ensures Widest(rows, n + 1, if |Row(rows, n)| > w then |Row(rows, n)| else w)
  {}

  lemma ReadAll(rows: seq<string>, legend: Legend, ps: seq<Placement>)
    requires ReadBefore(rows, legend, 0, |rows|, ps)
    ensures Scanline(ps) && KnownBefore(rows, legend, 0, |rows|)
    ensures forall p :: p in ps <==> Inks(rows, legend, p)
  {}

  // ---- What text there is to read ----

  /** Each line followed by a newline. */
  function Ended(lines: seq<string>): string {
    if lines == [] then "" else lines[0] + "\n" + Ended(lines[1..])
  }

  lemma {:induction false} LinesOfEnded(lines: seq<string>)
    requires forall l :: l in lines ==> '\n' !in l
    ensures Lines(Ended(lines)) == lines + [""]
  {
    if lines != [] {
      LinesOfEnded(lines[1..]);
      LinesOfLine(lines[0], Ended(lines[1..]));
      assert lines == [lines[0]] + lines[1..];
    }
  }

  lemma {:induction false} LinesSplit(s: string)
    ensures forall l :: l in Lines(s) ==> '\n' !in l
    ensures Ended(Lines(s)) == s + "\n"
    ensures Lines(s)[|Lines(s)| - 1] == "" <==> s == "" || s[|s| - 1] == '\n'
  {
    if s != "" {
      var r := Lines(s[1..]);
      LinesSplit(s[1..]);
      assert s == [s[0]] + s[1..];
      if s[0] == '\n' {
        assert Lines(s) == [""] + r && Lines(s)[1..] == r;
      } else {
        FirstGrows(s[0], r);
      }
    }
  }

  lemma FirstGrows(c: char, r: seq<string>)
    requires c != '\n' && r != [] && forall l :: l in r ==> '\n' !in l
    ensures var t := [[c] + r[0]] + r[1..];
            && Ended(t) == [c] + Ended(r) && (forall l :: l in t ==> '\n' !in l)
            && (t[|t| - 1] == "" <==> r[|r| - 1] == "" && |r| > 1)
  {
    hide Ended;
    var t := [[c] + r[0]] + r[1..];
    var rest := Ended(r[1..]);
    EndedStart(r);
    EndedStart(t);
    assert t[1..] == r[1..];
    assert [c] + r[0] + "\n" + rest == [c] + (r[0] + "\n" + rest);
    forall l | l in t
      ensures '\n' !in l
    {
      assert l == [c] + r[0] || l in r[1..];
      assert r[0] in r;
    }
  }

  lemma EndedStart(lines: seq<string>)
    requires lines != []
    ensures Ended(lines) == lines[0] + "\n" + Ended(lines[1..])
  {}

  lemma {:induction false} EndedPush(lines: seq<string>, last: string)
    ensures Ended(lines + [last]) == Ended(lines) + last + "\n"
  {
    if lines == [] {
      assert Ended([last]) == last + "\n" + Ended([]);
    } else {
      assert (lines + [last])[1..] == lines[1..] + [last];
      EndedPush(lines[1..], last);
    }
  }

  /** The lines of a sheet: its legend, if it has one, and its rows. */
  function SheetLines(sheet: Sheet): seq<string> {
    (if sheet.legend.Some? then ["legend:" + sheet.legend.value] else []) + sheet.rows
  }

  /** A text is the lines of its sheet, each ended by a newline that may be missing at the very end; the first
      is a legend just when the text starts as one. */
  lemma SheetIsText(data: string)
    ensures var sheet := SheetOf(data);
            && (forall l :: l in SheetLines(sheet) ==> '\n' !in l)
            && Ended(SheetLines(sheet)) == (if data == "" || data[|data| - 1] == '\n' then data else data + "\n")
            && (sheet.legend.Some? <==> "legend:" <= data)
  {
    hide Lines, Ended;
    LinesSplit(data);
    var lines := Lines(data);
    var raw := if lines[|lines| - 1] == "" then lines[..|lines| - 1] else lines;
    assert forall l :: l in raw ==> l in lines;
    if lines[|lines| - 1] == "" {
      EndedPush(raw, "");
      assert raw + [""] == lines;
      assert Ended(raw) + "" + "\n" == Ended(raw) + "\n";
      SameBefore(Ended(raw), data, "\n");
    }
    assert Ended(raw) == data || Ended(raw) == data + "\n";
    FirstLine(raw, data);
    SheetOfRaw(data, raw);
  }

  lemma SameBefore(a: string, b: string, c: string)
    requires a + c == b + c
    ensures a == b
  {
    assert |a + c| == |b + c|;
    assert a == (a + c)[..|a|] && b == (b + c)[..|b|];
  }

  lemma FirstLine(raw: seq<string>, data: string)
    requires (forall l :: l in raw ==> '\n' !in l) && (Ended(raw) == data || Ended(raw) == data + "\n")
    ensures raw != [] && LEGEND <= raw[0] <==> "legend:" <= data
  {
    if raw != [] {
      LegendPrefix(raw[0], Ended(raw[1..]), data);
    }
  }

  lemma SheetOfRaw(data: string, raw: seq<string>)
    requires raw == (var lines := Lines(data); if lines[|lines| - 1] == "" then lines[..|lines| - 1] else lines)
    ensures SheetLines(SheetOf(data)) == raw
    ensures SheetOf(data).legend.Some? <==> raw != [] && LEGEND <= raw[0]
  {
    if raw != [] {
      assert raw == [raw[0]] + raw[1..];
      if LEGEND <= raw[0] {
        assert raw[0] == LEGEND + raw[0][|LEGEND|..];
      }
    }
  }

  lemma LegendPrefix(line: string, rest: string, data: string)
    requires line + "\n" + rest == data || line + "\n" + rest == data + "\n"
    requires '\n' !in line
    ensures LEGEND <= line <==> "legend:" <= data
  {
    var all := line + "\n" + rest;
    assert data == all[..|data|];
    assert all[..|line|] == line && all[|line|] == '\n';
    assert forall i :: 0 <= i < 7 ==> "legend:"[i] != '\n';
    if |line| >= 7 {
      assert line[..7] == all[..7];
      assert |data| >= 7 ==> data[..7] == all[..7];
    } else if |data| >= 7 {
      assert data[..7][|line|] == '\n';
    }
  }

  /** So a final newline makes no difference. */
  lemma FinalNewline(data: string)
    requires data != "" && data[|data| - 1] != '\n'
    ensures SheetOf(data + "\n") == SheetOf(data)
  {
    hide Lines, Ended;
    LinesSplit(data);
    var lines := Lines(data);
    LinesOfEnded(lines);
    assert (lines + [""])[..|lines|] == lines;
  }

  /** A row is its line, without the carriage return that may end it. */
  lemma RowIs(rows: seq<string>, y: nat, r: string)
    requires y < |rows|
    ensures Row(rows, y) == r <==> rows[y] == r + "\r" || (rows[y] == r && (r == "" || r[|r| - 1] != '\r'))
  {
    var line := rows[y];
    if |line| > 0 && line[|line| - 1] == '\r' {
      assert line == line[..|line| - 1] + "\r";
    }
    if line == r + "\r" {
      assert line[..|r|] == r;
    }
  }

  lemma {:induction false} WordEndOfConcat(a: string, c: char, b: string)
    requires Space(c)
    ensures WordEnd(a + [c] + b) == WordEnd(a)
  {
    if a == "" || Space(a[0]) {
      assert (a + [c] + b)[0] == if a == "" then c else a[0];
    } else {
      assert (a + [c] + b)[1..] == a[1..] + [c] + b;
      WordEndOfConcat(a[1..], c, b);
    }
  }

  /** Any white space separates: the fields around it are those before it and those after it. */
  lemma {:induction false} FieldsSplit(a: string, c: char, b: string)
    requires Space(c)
    ensures Fields(a + [c] + b) == Fields(a) + Fields(b)
    decreases |a|
  {
    hide Space, WordEnd, Fields;
    var s := a + [c] + b;
    if a == "" {
      FieldsOfNothing();
      assert s[1..] == b;
      FieldsStart(s);
    } else {
      FieldsStart(a);
      FieldsStart(s);
      assert s[0] == a[0];
      if Space(a[0]) {
        assert s[1..] == a[1..] + [c] + b;
        FieldsSplit(a[1..], c, b);
      } else {
        var n := WordEnd(a);
        WordEndOfConcat(a, c, b);
        assert s[..n] == a[..n] && s[n..] == a[n..] + [c] + b;
        FieldsSplit(a[n..], c, b);
      }
    }
  }

  lemma FieldsStart(s: string)
    requires s != ""
    ensures Space(s[0]) ==> Fields(s) == Fields(s[1..])
    ensures !Space(s[0]) ==> 0 < WordEnd(s) <= |s| && Fields(s) == [s[..WordEnd(s)]] + Fields(s[WordEnd(s)..])
  {
    hide Space;
  }

  /** A text without white space is one field. */
  lemma FieldsOfSolid(s: string)
    requires s != "" && forall i :: 0 <= i < |s| ==> !Space(s[i])
    ensures Fields(s) == [s]
  {
    assert s + "" == s;
    FieldsOfWord(s, "");
    FieldsOfNothing();
  }

  /** The white space of ASCII is tab to carriage return, and the blank. */
  lemma AsciiSpace(c: char)
    requires c < '\U{80}'
    ensures Space(c) <==> c == ' ' || 9 <= c as int <= 13
  {}

  /** Exactly c=#rrggbb reads as an entry, c one ASCII character that is not '=', '.' or a blank. */
  lemma TokenReads(tok: string, c: char, color: byte)
    ensures ParseToken(tok) == Ok((c, color)) <==>
            && c < '\U{80}' && c != '=' && c != '.' && c != ' '
            && [c, '='] <= tok && PaletteColor(tok[2..]) == Some(color)
  {
    hide PaletteColor;
    if |tok| == 2 {
      ShortHex(tok[2..]);
    }
  }

  lemma ShortHex(hex: string)
    requires |hex| != 7
    ensures PaletteColor(hex) == None
  {}

  /** Tokens are read one after the other: the first bad one decides, and later entries are added to, or
      replace, earlier ones. */
  lemma {:induction false} TokensInOrder(toks: seq<string>, tok: string, legend: Legend)
    ensures ParseTokens([], legend) == Ok(legend)
    ensures ParseTokens(toks + [tok], legend)
            == match ParseTokens(toks, legend)
               case Err(e) => Err(e)
               case Ok(read) =>
                 match ParseToken(tok) case Err(e) => Err(e) case Ok((c, color)) => Ok(read[c := color])
  {
    hide ParseToken;
    if toks == [] {
      assert ([] + [tok])[1..] == [];
    } else {
      assert (toks + [tok])[1..] == toks[1..] + [tok];
      match ParseToken(toks[0]) {
        case Err(e) =>
        case Ok(entry) => TokensInOrder(toks[1..], tok, legend[entry.0 := entry.1]);
      }
    }
  }

  // ---- Windows line endings ----

  ghost predicate SameRows(a: seq<string>, b: seq<string>) {
    |a| == |b| && forall y :: 0 <= y < |a| ==> Row(a, y) == Row(b, y)
  }

  lemma DrawingOfSame(a: seq<string>, b: seq<string>, legend: Legend, off: nat, r: Result<Blueprint>)
    requires SameRows(a, b)
    ensures r.Ok? && Drawing(a, legend, r.value) ==> Drawing(b, legend, r.value)
    ensures r.Err? && FirstUnknown(a, off, legend, r.error) ==> FirstUnknown(b, off, legend, r.error)
  {
    hide Row, Known;
    assert forall p :: Inks(a, legend, p) <==> Inks(b, legend, p);
    assert forall x, y :: KnownBefore(a, legend, x, y) ==> KnownBefore(b, legend, x, y);
    assert forall w :: Widest(a, |a|, w) ==> Widest(b, |b|, w);
  }

  /** The same lines, each ended by a carriage return as well. */
  function Carried(lines: seq<string>): seq<string> {
    seq(|lines|, i requires 0 <= i < |lines| => lines[i] + "\r")
  }

  /** A drawing saved with carriage returns before its newlines reads as the same drawing, or fails with the
      same error. */
  lemma CarriageReturnsIgnored(lines: seq<string>, r: Result<Blueprint>)
    requires forall i :: 0 <= i < |lines| ==> '\n' !in lines[i] && '\r' !in lines[i]
    ensures Parsed(Ended(Carried(lines)), r) <==> Parsed(Ended(lines), r)
  {
    hide SheetOf, Drawing, FirstUnknown, LegendOf, Carried, SameRows;
    CarriedSheets(lines);
    var a, b := SheetOf(Ended(lines)), SheetOf(Ended(Carried(lines)));
    if LegendOf(a).Ok? {
      var off := if a.legend.Some? then 1 else 0;
      DrawingOfSame(a.rows, b.rows, LegendOf(a).value, off, r);
      DrawingOfSame(b.rows, a.rows, LegendOf(a).value, off, r);
    }
  }

  lemma CarriedSheets(lines: seq<string>)
    requires forall i :: 0 <= i < |lines| ==> '\n' !in lines[i] && '\r' !in lines[i]
    ensures var a, b := SheetOf(Ended(lines)), SheetOf(Ended(Carried(lines)));
            && (a.legend.Some? <==> b.legend.Some?) && LegendOf(a) == LegendOf(b)
            && SameRows(a.rows, b.rows) && SameRows(b.rows, a.rows)
  {
    hide Lines, LegendOf, SheetOf, Ended, SameRows, Carried;
    var carried := Carried(lines);
    CarriedLines(lines);
    LinesOfEnded(lines);
    LinesOfEnded(carried);
    SheetOfLines(lines);
    SheetOfLines(carried);
    if lines != [] && LEGEND <= lines[0] {
      LegendCarried(lines[0]);
      CarriedLegend(lines[0]);
      CarriedRows(lines[1..], carried[1..]);
    } else {
      if lines != [] {
        LegendCarried(lines[0]);
      }
      NoLegend(lines, carried);
      CarriedRows(lines, carried);
    }
  }

  lemma CarriedLines(lines: seq<string>)
    requires forall i :: 0 <= i < |lines| ==> '\n' !in lines[i]
    ensures |Carried(lines)| == |lines| && forall i :: 0 <= i < |lines| ==> Carried(lines)[i] == lines[i] + "\r"
    ensures forall l :: l in Carried(lines) ==> '\n' !in l
    ensures forall l :: l in lines ==> '\n' !in l
  {}

  lemma CarriedLegend(line: string)
    requires '\r' !in line && LEGEND <= line && LEGEND <= line + "\r"
    ensures forall a, b :: LegendOf(Sheet(Some(line[|LEGEND|..]), a)) == LegendOf(Sheet(Some((line + "\r")[|LEGEND|..]), b))
  {
    hide Fields, ParseTokens;
    LegendCarried(line);
  }

  lemma NoLegend(a: seq<string>, b: seq<string>)
    ensures LegendOf(Sheet(None, a)) == LegendOf(Sheet(None, b))
  {}

  lemma CarriedRows(a: seq<string>, b: seq<string>)
    requires |a| == |b| && forall i :: 0 <= i < |a| ==> '\r' !in a[i] && b[i] == a[i] + "\r"
    ensures SameRows(a, b) && SameRows(b, a)
  {
    hide Row;
    forall y | 0 <= y < |a|
      ensures Row(a, y) == Row(b, y)
    {
      RowIs(a, y, a[y]);
      RowIs(b, y, a[y]);
    }
  }

  lemma SheetOfLines(lines: seq<string>)
    requires Lines(Ended(lines)) == lines + [""]
    ensures SheetOf(Ended(lines)) == if lines != [] && LEGEND <= lines[0] then Sheet(Some(lines[0][|LEGEND|..]), lines[1..])
                                     else Sheet(None, lines)
  {
    assert (lines + [""])[..|lines|] == lines;
  }

  lemma LegendCarried(line: string)
    requires '\r' !in line
    ensures LEGEND <= line <==> LEGEND <= line + "\r"
    ensures LEGEND <= line ==> Fields((line + "\r")[|LEGEND|..]) == Fields(line[|LEGEND|..])
  {
    hide Fields;
    var more := line + "\r";
    assert more[..|line|] == line && more[|line|] == '\r';
    assert forall i :: 0 <= i < |LEGEND| ==> LEGEND[i] != '\r';
    if |line| >= |LEGEND| {
      assert more[..|LEGEND|] == line[..|LEGEND|];
    } else if |more| == |LEGEND| {
      assert more[..|LEGEND|][|line|] == '\r';
    }
    if LEGEND <= line {
      var text := line[|LEGEND|..];
      assert more[|LEGEND|..] == text + ['\r'] + "";
      FieldsSplit(text, '\r', "");
      FieldsOfNothing();
      assert Fields(text) + [] == Fields(text);
    }
  }

  // ---- The printer ----

  const LETTERS := "abcdefghijklmnop"

  /** Colours in the order they get letters: each colour in use once, none else required. */
  ghost predicate Lettering(cells: map<Cell, byte>, order: seq<byte>) {
    && |order| <= COLORS
    && (forall i :: 0 <= i < |order| ==> order[i] < COLORS)
    && (forall i, j :: 0 <= i < j < |order| ==> order[i] != order[j])
    && (forall c :: c in cells ==> cells[c] in order)
  }

  function PositionOf(order: seq<byte>, c: byte): (i: nat)
    requires c in order
    ensures i < |order| && order[i] == c
  {
    if order[0] == c then 0 else 1 + PositionOf(order[1..], c)
  }

  function LetterOf(order: seq<byte>, c: byte): char
    requires |order| <= COLORS && c in order
  {
    LETTERS[PositionOf(order, c)]
  }

  function TokenOf(order: seq<byte>, i: nat): string
    requires |order| <= COLORS && i < |order| && order[i] < COLORS
  {
    [LETTERS[i], '='] + HexOf(PALETTE[order[i]])
  }

  predicate Letters(order: seq<byte>) {
    |order| <= COLORS && forall i :: 0 <= i < |order| ==> order[i] < COLORS
  }

  /** The legend entries from the i-th on. */
  function EntriesText(order: seq<byte>, i: nat): string
    requires i <= |order| && Letters(order)
    decreases |order| - i
  {
    if i == |order| then "" else " " + TokenOf(order, i) + EntriesText(order, i + 1)
  }

  function Rune(cells: map<Cell, byte>, order: seq<byte>, x: int, y: int): char
    requires |order| <= COLORS
  {
    if (x, y) in cells && cells[(x, y)] in order then LetterOf(order, cells[(x, y)]) else '.'
  }

  function RowText(cells: map<Cell, byte>, order: seq<byte>, w: nat, y: int): (s: string)
    requires |order| <= COLORS
    ensures |s| == w && forall x :: 0 <= x < w ==> s[x] == Rune(cells, order, x, y)
  {
    seq(w, x => Rune(cells, order, x, y))
  }

  /** The rows from the y-th on, each ended by a newline. */
  function RowsText(cells: map<Cell, byte>, order: seq<byte>, w: nat, h: nat, y: nat): string
    requires y <= h && |order| <= COLORS
    decreases h - y
  {
    if y == h then "" else RowText(cells, order, w, y) + "\n" + RowsText(cells, order, w, h, y + 1)
  }

  function ArtText(cells: map<Cell, byte>, order: seq<byte>, w: nat, h: nat): string
    requires Letters(order)
  {
    LEGEND + EntriesText(order, 0) + "\n" + RowsText(cells, order, w, h, 0)
  }

  // ---- Reading back what was printed ----

  lemma LetterFacts(i: nat)
    requires i < COLORS
    ensures var c := LETTERS[i];
            'a' <= c <= 'p' && c as int == 'a' as int + i && !Space(c) && !Skip(c)
  {}

  lemma HexFacts(c: Rgb, k: nat)
    requires k < 7
    ensures !Space(HexOf(c)[k]) && HexOf(c)[k] != '\n'
  {
    hide HexNibble;
    if k > 0 {
      var d := HexOf(c)[k];
      assert d in HEX_DIGITS;
      DigitIsNotSpace(d);
    }
  }

  lemma DigitIsNotSpace(d: char)
    requires d in HEX_DIGITS
    ensures !Space(d) && d != '\n'
  {}

  lemma TokenFacts(order: seq<byte>, i: nat)
    requires Letters(order) && i < |order|
    ensures TokenOf(order, i) != ""
    ensures forall k :: 0 <= k < |TokenOf(order, i)| ==> !Space(TokenOf(order, i)[k])
    ensures ParseToken(TokenOf(order, i)) == Ok((LETTERS[i], order[i]))
  {
    hide HexOf, PaletteColor;
    var tok := TokenOf(order, i);
    var hex := HexOf(PALETTE[order[i]]);
    LetterFacts(i);
    PaletteColorRoundTrip(order[i]);
    assert tok[2..] == hex;
    forall k | 0 <= k < |tok|
      ensures !Space(tok[k])
    {
      if k >= 2 {
        HexFacts(PALETTE[order[i]], k - 2);
        assert tok[k] == hex[k - 2];
      }
    }
  }

  function Tokens(order: seq<byte>, i: nat): seq<string>
    requires i <= |order| && Letters(order)
    decreases |order| - i
  {
    if i == |order| then [] else [TokenOf(order, i)] + Tokens(order, i + 1)
  }

  lemma EntriesSplit(order: seq<byte>, i: nat)
    requires i <= |order| && Letters(order)
    ensures i == |order| ==> EntriesText(order, i) == ""
    ensures i < |order| ==> EntriesText(order, i) == " " + (TokenOf(order, i) + EntriesText(order, i + 1))
    ensures EntriesText(order, i) == "" || EntriesText(order, i)[0] == ' '
  {
    hide TokenOf;
  }

  lemma {:induction false} FieldsOfEntries(order: seq<byte>, i: nat)
    requires i <= |order| && Letters(order)
    ensures Fields(EntriesText(order, i)) == Tokens(order, i)
    decreases |order| - i
  {
    hide TokenOf, ParseToken, Fields, Space, EntriesText;
    EntriesSplit(order, i);
    if i < |order| {
      var tok, rest := TokenOf(order, i), EntriesText(order, i + 1);
      FieldsOfEntries(order, i + 1);
      TokenFacts(order, i);
      EntriesSplit(order, i + 1);
      FieldsOfGap(tok + rest);
      FieldsOfWord(tok, rest);
    } else {
      FieldsOfNothing();
    }
  }

  lemma {:induction false} EntriesOneLine(order: seq<byte>, i: nat)
    requires i <= |order| && Letters(order)
    ensures '\n' !in EntriesText(order, i)
    decreases |order| - i
  {
    hide TokenOf, ParseToken;
    if i < |order| {
      EntriesOneLine(order, i + 1);
      TokenFacts(order, i);
      NoNewline(TokenOf(order, i));
    }
  }

  lemma FieldsOfNothing()
    ensures Fields("") == []
  {}

  lemma FieldsOfGap(rest: string)
    ensures Space(' ') && Fields(" " + rest) == Fields(rest)
  {
    assert (" " + rest)[1..] == rest;
  }

  lemma NoNewline(s: string)
    requires forall k :: 0 <= k < |s| ==> !Space(s[k])
    ensures '\n' !in s
  {
    assert Space('\n');
  }

  /** What a legend of the first `n` letters says. */
  function LegendOfOrder(order: seq<byte>, n: nat): Legend
    requires n <= |order| <= COLORS
  {
    if n == 0 then map[] else LegendOfOrder(order, n - 1)[LETTERS[n - 1] := order[n - 1]]
  }

  lemma {:induction false} LegendLetters(order: seq<byte>, n: nat, c: char)
    requires n <= |order| <= COLORS
    ensures var l := LegendOfOrder(order, n);
            var i := c as int - 'a' as int;
            && (c in l <==> 0 <= i < n)
            && (c in l ==> l[c] == order[i])
  {
    if n > 0 {
      LegendLetters(order, n - 1, c);
      LetterFacts(n - 1);
    }
  }

  lemma {:induction false} TokensRead(order: seq<byte>, i: nat)
    requires i <= |order| && Letters(order)
    ensures ParseTokens(Tokens(order, i), LegendOfOrder(order, i)) == Ok(LegendOfOrder(order, |order|))
    decreases |order| - i
  {
    hide TokenOf, ParseToken;
    if i < |order| {
      TokenFacts(order, i);
      TokensRead(order, i + 1);
      assert Tokens(order, i)[1..] == Tokens(order, i + 1);
    }
  }

  /** Rows y to h - 1 as the reader gets them. */
  function Rows(cells: map<Cell, byte>, order: seq<byte>, w: nat, h: nat, y: nat): seq<string>
    requires y <= h && |order| <= COLORS
    decreases h - y
  {
    if y == h then [] else [RowText(cells, order, w, y)] + Rows(cells, order, w, h, y + 1)
  }

  lemma LetterReads(order: seq<byte>, c: byte)
    requires Letters(order) && c in order
    ensures var r := LetterOf(order, c);
            var l := LegendOfOrder(order, |order|);
            'a' <= r <= 'p' && r in l && l[r] == c
  {
    hide LegendOfOrder, Space;
    LetterFacts(PositionOf(order, c));
    LegendLetters(order, |order|, LetterOf(order, c));
  }

  lemma RuneFacts(cells: map<Cell, byte>, order: seq<byte>, x: int, y: int)
    requires Lettering(cells, order)
    ensures var c := Rune(cells, order, x, y);
            var l := LegendOfOrder(order, |order|);
            && c != '\n' && c != '\r' && Known(l, c)
            && forall color: byte :: (!Skip(c) && c in l && l[c] == color) <==> Shows(cells, Placement(x, y, color))
  {
    hide LegendOfOrder, LetterOf;
    if (x, y) in cells {
      LetterReads(order, cells[(x, y)]);
    }
  }

  lemma {:induction false} LinesOfRows(cells: map<Cell, byte>, order: seq<byte>, w: nat, h: nat, y: nat)
    requires y <= h && Lettering(cells, order)
    ensures Lines(RowsText(cells, order, w, h, y)) == Rows(cells, order, w, h, y) + [""]
    ensures |Rows(cells, order, w, h, y)| == h - y
    ensures forall k :: 0 <= k < h - y ==> Rows(cells, order, w, h, y)[k] == RowText(cells, order, w, y + k)
    decreases h - y
  {
    hide Rune, RowText;
    if y < h {
      var row := RowText(cells, order, w, y);
      LinesOfRows(cells, order, w, h, y + 1);
      forall x | 0 <= x < w
        ensures row[x] != '\n'
      {
        RuneFacts(cells, order, x, y);
      }
      LinesOfLine(row, RowsText(cells, order, w, h, y + 1));
    }
  }

  lemma SheetOfArt(cells: map<Cell, byte>, order: seq<byte>, w: nat, h: nat)
    requires Lettering(cells, order)
    ensures SheetOf(ArtText(cells, order, w, h)) == Sheet(Some(EntriesText(order, 0)), Rows(cells, order, w, h, 0))
  {
    hide Rows, RowsText, EntriesText;
    var first := LEGEND + EntriesText(order, 0);
    EntriesOneLine(order, 0);
    assert '\n' !in first;
    LinesOfLine(first, RowsText(cells, order, w, h, 0));
    LinesOfRows(cells, order, w, h, 0);
    var rows := Rows(cells, order, w, h, 0);
    assert Lines(ArtText(cells, order, w, h)) == [first] + (rows + [""]);
    assert ([first] + (rows + [""]))[..1 + |rows|] == [first] + rows;
    assert first[|LEGEND|..] == EntriesText(order, 0);
  }

  lemma ArtRow(cells: map<Cell, byte>, order: seq<byte>, w: nat, h: nat, y: nat)
    requires Lettering(cells, order) && y < h
    ensures |Rows(cells, order, w, h, 0)| == h
    ensures Row(Rows(cells, order, w, h, 0), y) == RowText(cells, order, w, y)
  {
    hide Rune, Rows, RowText;
    LinesOfRows(cells, order, w, h, 0);
    if w > 0 {
      RuneFacts(cells, order, w - 1, y);
    }
  }

  lemma ArtKnown(cells: map<Cell, byte>, order: seq<byte>, w: nat, h: nat)
    requires Lettering(cells, order)
    ensures |Rows(cells, order, w, h, 0)| == h
    ensures KnownBefore(Rows(cells, order, w, h, 0), LegendOfOrder(order, |order|), 0, h)
  {
    hide Rune, Rows, RowText, Row, Known;
    var rows := Rows(cells, order, w, h, 0);
    LinesOfRows(cells, order, w, h, 0);
    forall x, y | 0 <= y < h && 0 <= x < |Row(rows, y)| && Earlier(x, y, 0, h)
      ensures Known(LegendOfOrder(order, |order|), Row(rows, y)[x])
    {
      ArtRow(cells, order, w, h, y);
      RuneFacts(cells, order, x, y);
    }
  }

  lemma ArtWidth(cells: map<Cell, byte>, order: seq<byte>, w: nat, h: nat, widest: nat)
    requires Lettering(cells, order) && |Rows(cells, order, w, h, 0)| == h
    requires Widest(Rows(cells, order, w, h, 0), h, widest)
    ensures widest == if h > 0 then w else 0
  {
    hide Rune, Rows, RowText, Row;
    forall y | 0 <= y < h
      ensures |Row(Rows(cells, order, w, h, 0), y)| == w
    {
      ArtRow(cells, order, w, h, y);
    }
    assert h > 0 ==> |Row(Rows(cells, order, w, h, 0), 0)| == w;
  }

  lemma ArtInks(cells: map<Cell, byte>, order: seq<byte>, w: nat, h: nat, p: Placement)
    requires Lettering(cells, order)
    ensures Inks(Rows(cells, order, w, h, 0), LegendOfOrder(order, |order|), p)
            <==> 0 <= p.x < w && 0 <= p.y < h && Shows(cells, p)
  {
    hide Rune, Rows, RowText, Row, Known;
    LinesOfRows(cells, order, w, h, 0);
    if 0 <= p.y < h {
      ArtRow(cells, order, w, h, p.y);
      RuneFacts(cells, order, p.x, p.y);
    }
  }

  lemma ArtDrawing(cells: map<Cell, byte>, order: seq<byte>, w: nat, h: nat, bp: Blueprint)
    requires Lettering(cells, order)
    requires Drawing(Rows(cells, order, w, h, 0), LegendOfOrder(order, |order|), bp)
    ensures bp.h == h && bp.w == if h > 0 then w else 0
    ensures CellsOf(bp.placements) == Clip(cells, w, h)
  {
    hide Rows, Inks, KnownBefore, Widest, Scanline, CellsOf, LegendOfOrder;
    LinesOfRows(cells, order, w, h, 0);
    ArtWidth(cells, order, w, h, bp.w);
    var shown := CellsOf(bp.placements);
    forall c: Cell, color: byte
      ensures Shows(shown, Placement(c.0, c.1, color)) <==> Shows(Clip(cells, w, h), Placement(c.0, c.1, color))
    {
      var p := Placement(c.0, c.1, color);
      CellsOfScanline(bp.placements, p);
      ArtInks(cells, order, w, h, p);
    }
    SameShown(shown, Clip(cells, w, h));
  }

  lemma SameShown(a: map<Cell, byte>, b: map<Cell, byte>)
    requires forall c: Cell, color: byte :: Shows(a, Placement(c.0, c.1, color)) <==> Shows(b, Placement(c.0, c.1, color))
    ensures a == b
  {
    forall c: Cell
      ensures c in a <==> c in b
      ensures c in a && c in b ==> a[c] == b[c]
    {
      if c in a {
        assert Shows(a, Placement(c.0, c.1, a[c]));
      }
      if c in b {
        assert Shows(b, Placement(c.0, c.1, b[c]));
      }
    }
  }

  /** Reading a printed drawing succeeds and shows every cell of the box with its colour, in scanline
      order, whatever letters the colours were given. The width survives unless there are no rows. */
  lemma PrintedReadsBack(bp: Blueprint, order: seq<byte>, r: Result<Blueprint>)
    requires Lettering(CellsOf(bp.placements), order)
    requires Parsed(ArtText(CellsOf(bp.placements), order, bp.w, bp.h), r)
    ensures r.Ok?
    ensures r.value.h == bp.h && r.value.w == (if bp.h > 0 then bp.w else 0)
    ensures Scanline(r.value.placements)
    ensures CellsOf(r.value.placements) == Clip(CellsOf(bp.placements), bp.w, bp.h)
  {
    hide SheetOf, ParseTokens, Fields, Inks, Widest, Scanline, CellsOf, EntriesText, Rows;
    var cells := CellsOf(bp.placements);
    var rows, legend := Rows(cells, order, bp.w, bp.h, 0), LegendOfOrder(order, |order|);
    SheetOfArt(cells, order, bp.w, bp.h);
    FieldsOfEntries(order, 0);
    TokensRead(order, 0);
    ArtKnown(cells, order, bp.w, bp.h);
    NoneUnknown(rows, legend, 1);
    ArtDrawing(cells, order, bp.w, bp.h, r.value);
  }

  /** What a drawing of one colour looks like in print: three dark cells of a two by two box. */
  lemma PrintedExample(cells: map<Cell, byte>)
    requires cells == map[(0, 0) := 3, (1, 0) := 3, (1, 1) := 3]
    ensures ArtText(cells, [3], 2, 2) == "legend: a=#222222\naa\n.a\n"
  {
    hide Rune, EntriesText;
    var order: seq<byte> := [3];
    RuneOf(cells, order);
    EntryOf(order);
    assert RowText(cells, order, 2, 0) == "aa" && RowText(cells, order, 2, 1) == ".a";
    assert RowsText(cells, order, 2, 2, 2) == "";
    assert RowsText(cells, order, 2, 2, 1) == ".a\n";
    assert RowsText(cells, order, 2, 2, 0) == "aa\n.a\n";
  }

  lemma EntryOf(order: seq<byte>)
    requires order == [3]
    ensures EntriesText(order, 0) == " a=#222222"
  {
    assert HexOf(PALETTE[3]) == "#222222";
    assert EntriesText(order, 1) == "" && TokenOf(order, 0) == "a=#222222";
  }

  lemma RuneOf(cells: map<Cell, byte>, order: seq<byte>)
    requires order == [3]
    ensures forall x, y :: Rune(cells, order, x, y) == if (x, y) in cells && cells[(x, y)] == 3 then 'a' else '.'
  {}

  // ---- Printing ----

  /** How many of the cells in `keys` show `c`. */
  ghost function Usage(cells: map<Cell, byte>, keys: set<Cell>, c: byte): nat {
    |set k | k in keys && k in cells && cells[k] == c|
  }

  lemma UsageGrows(cells: map<Cell, byte>, keys: set<Cell>, k: Cell, c: byte)
    requires k in cells && k !in keys
    ensures Usage(cells, keys + {k}, c) == Usage(cells, keys, c) + if cells[k] == c then 1 else 0
  {
    var few := set j | j in keys && j in cells && cells[j] == c;
    var all := set j | j in keys + {k} && j in cells && cells[j] == c;
    assert all == few + if cells[k] == c then {k} else {};
  }

  lemma UsedIffShown(cells: map<Cell, byte>, c: byte)
    ensures Usage(cells, cells.Keys, c) > 0 <==> exists k :: k in cells && cells[k] == c
  {
    var s := set k | k in cells.Keys && k in cells && cells[k] == c;
    if s != {} {
      var k :| k in s;
      assert k in cells && cells[k] == c;
    }
    if k :| k in cells && cells[k] == c {
      assert k in s;
    }
  }

  /** Most used first, the smaller index first among equals. */
  predicate Heavier(counts: seq<nat>, a: byte, b: byte)
    requires a < |counts| && b < |counts|
  {
    counts[a] > counts[b] || (counts[a] == counts[b] && a < b)
  }

  predicate Falling(counts: seq<nat>, order: seq<byte>) {
    && (forall i :: 0 <= i < |order| ==> order[i] < |counts|)
    && (forall i, j :: 0 <= i < j < |order| ==>
          counts[order[i]] > counts[order[j]] || (counts[order[i]] == counts[order[j]] && order[i] < order[j]))
  }

  /** sort.Slice by Heavier. */
  function Sorted(counts: seq<nat>, order: seq<byte>): (r: seq<byte>)
    requires forall i :: 0 <= i < |order| ==> order[i] < |counts|
    requires forall i, j :: 0 <= i < j < |order| ==> order[i] != order[j]
    ensures Falling(counts, r) && |r| == |order| && forall c :: c in r <==> c in order
  {
    if order == [] then [] else Placed(counts, Sorted(counts, order[1..]), order[0])
  }

  function Placed(counts: seq<nat>, order: seq<byte>, c: byte): (r: seq<byte>)
    requires Falling(counts, order) && c < |counts| && c !in order
    ensures Falling(counts, r) && |r| == |order| + 1 && forall d :: d in r <==> d in order || d == c
  {
    if order == [] || Heavier(counts, c, order[0]) then [c] + order
    else
      var rest := Placed(counts, order[1..], c);
      assert forall d :: d in rest ==> Heavier(counts, order[0], d);
      assert forall j :: 0 <= j < |rest| ==> Heavier(counts, order[0], rest[j]);
      [order[0]] + rest
  }

  /** Exactly the colours shown, by falling usage. */
  ghost predicate ByUsage(cells: map<Cell, byte>, order: seq<byte>) {
    && (forall c: byte :: c in order <==> exists k :: k in cells && cells[k] == c)
    && Falling(seq(COLORS, c requires 0 <= c < COLORS => Usage(cells, cells.Keys, c)), order)
  }

  /** Whatever reads `text` gets the drawing's box and the cells it shows there. */
  ghost predicate ReadsBackAs(text: string, bp: Blueprint) {
    forall r :: Parsed(text, r) ==>
      && r.Ok?
      && r.value.h == bp.h && r.value.w == (if bp.h > 0 then bp.w else 0)
      && Scanline(r.value.placements)
      && CellsOf(r.value.placements) == Clip(CellsOf(bp.placements), bp.w, bp.h)
  }

  method CountUsage(cells: map<Cell, byte>) returns (counts: seq<nat>)
    requires forall k :: k in cells ==> cells[k] < COLORS
    ensures counts == seq(COLORS, c requires 0 <= c < COLORS => Usage(cells, cells.Keys, c))
  {
    var tally := new nat[COLORS](_ => 0);
    var todo := cells.Keys;
    while todo != {}
      invariant todo <= cells.Keys
      invariant forall c :: 0 <= c < COLORS ==> tally[c] == Usage(cells, cells.Keys - todo, c)
      decreases todo
    {
      var k :| k in todo;
      forall c: byte | c < COLORS
        ensures Usage(cells, cells.Keys - (todo - {k}), c)
             == Usage(cells, cells.Keys - todo, c) + if cells[k] == c then 1 else 0
      {
        assert cells.Keys - (todo - {k}) == cells.Keys - todo + {k};
        UsageGrows(cells, cells.Keys - todo, k, c);
      }
      tally[cells[k]] := tally[cells[k]] + 1;
      todo := todo - {k};
    }
    assert cells.Keys - {} == cells.Keys;
    return tally[..];
  }

  method LetterOrder(cells: map<Cell, byte>) returns (order: seq<byte>)
    requires forall k :: k in cells ==> cells[k] < COLORS
    ensures Lettering(cells, order) && ByUsage(cells, order)
  {
    var counts := CountUsage(cells);
    order := [];
    for i := 0 to COLORS
      invariant |order| <= i
      invariant forall k :: 0 <= k < |order| ==> order[k] < i
      invariant forall j, k :: 0 <= j < k < |order| ==> order[j] != order[k]
      invariant forall c :: c in order <==> 0 <= c < i && counts[c] > 0
    {
      if counts[i] > 0 {
        order := order + [i];
      }
    }
    order := Sorted(counts, order);
    forall c: byte
      ensures c in order <==> exists k :: k in cells && cells[k] == c
    {
      UsedIffShown(cells, c);
    }
  }

  /** Prints a drawing: letters by falling usage, '.' where nothing is placed; it reads back as drawn. */
  method FormatTextArt(bp: Blueprint) returns (text: string)
    requires forall p :: p in bp.placements ==> p.color < COLORS
    ensures exists order :: Lettering(CellsOf(bp.placements), order) && ByUsage(CellsOf(bp.placements), order)
                         && text == ArtText(CellsOf(bp.placements), order, bp.w, bp.h)
    ensures ReadsBackAs(text, bp)
  {
    var cells: map<Cell, byte> := map[];
    for i := 0 to |bp.placements|
      invariant cells == CellsOf(bp.placements[..i])
      invariant forall k :: k in cells ==> cells[k] < COLORS
    {
      var p := bp.placements[i];
      assert bp.placements[..i + 1][..i] == bp.placements[..i];
      assert p in bp.placements;
      cells := cells[(p.x, p.y) := p.color];
    }
    assert bp.placements[..|bp.placements|] == bp.placements;
    var order := LetterOrder(cells);
    text := PrintArt(cells, order, bp.w, bp.h);
    forall r | Parsed(text, r)
      ensures r.Ok?
      ensures r.value.h == bp.h && r.value.w == (if bp.h > 0 then bp.w else 0)
      ensures Scanline(r.value.placements)
      ensures CellsOf(r.value.placements) == Clip(CellsOf(bp.placements), bp.w, bp.h)
    {
      PrintedReadsBack(bp, order, r);
    }
  }

  /** charOf says every colour's letter. */
  ghost predicate Charted(charOf: array<char>, order: seq<byte>)
    requires |order| <= COLORS
    reads charOf
  {
    charOf.Length == COLORS && forall c :: c in order ==> c < COLORS && charOf[c] == LetterOf(order, c)
  }

  lemma ChartedByPosition(charOf: array<char>, order: seq<byte>)
    requires Letters(order) && charOf.Length == COLORS
    requires forall k :: 0 <= k < |order| ==> charOf[order[k]] == LETTERS[k]
    ensures Charted(charOf, order)
  {}

  method PrintArt(cells: map<Cell, byte>, order: seq<byte>, w: nat, h: nat) returns (text: string)
    requires Lettering(cells, order)
    ensures text == ArtText(cells, order, w, h)
  {
    hide TokenOf, RowText, LetterOf, EntriesText;
    EntriesSplit(order, |order|);
    var charOf := new char[COLORS](_ => '?');
    text := LEGEND;
    for i := 0 to |order|
      invariant text + EntriesText(order, i) == LEGEND + EntriesText(order, 0)
      invariant forall k :: 0 <= k < i ==> charOf[order[k]] == LETTERS[k]
    {
      charOf[order[i]] := LETTERS[i];
      NextEntry(text, order, i);
      text := text + " " + TokenOf(order, i);
    }
    ChartedByPosition(charOf, order);
    text := text + "\n";
    for y := 0 to h
      invariant text + RowsText(cells, order, w, h, y) == ArtText(cells, order, w, h)
      invariant Charted(charOf, order)
    {
      var row := PrintRow(cells, order, charOf, w, y);
      text := text + row + "\n";
    }
  }

  lemma NextEntry(text: string, order: seq<byte>, i: nat)
    requires i < |order| && Letters(order)
    ensures text + " " + TokenOf(order, i) + EntriesText(order, i + 1) == text + EntriesText(order, i)
  {
    hide TokenOf, EntriesText;
    EntriesSplit(order, i);
  }

  method PrintRow(cells: map<Cell, byte>, order: seq<byte>, charOf: array<char>, w: nat, y: nat) returns (row: string)
    requires Lettering(cells, order) && Charted(charOf, order)
    ensures row == RowText(cells, order, w, y)
  {
    row := "";
    for x := 0 to w
      invariant row == RowText(cells, order, w, y)[..x]
    {
      var c := '.';
      if (x, y) in cells {
        c := charOf[cells[(x, y)]];
      }
      row := row + [c];
    }
  }

  // ---- Overlay ----

  /** The box [0, w) x [0, h) is [0, w0) x [0, h0) grown right and down just as far as `ps` needs. */
  ghost predicate GrownBox(w0: nat, h0: nat, ps: seq<Placement>, w: nat, h: nat) {
    && w0 <= w && h0 <= h
    && (forall p :: p in ps ==> p.x < w && p.y < h)
    && (w > w0 ==> exists p :: p in ps && p.x + 1 == w)
    && (h > h0 ==> exists p :: p in ps && p.y + 1 == h)
  }

  lemma GrownBoxConcat(w0: nat, h0: nat, a: seq<Placement>, w1: nat, h1: nat, b: seq<Placement>, w: nat, h: nat)
    requires GrownBox(w0, h0, a, w1, h1) && GrownBox(w1, h1, b, w, h)
    ensures GrownBox(w0, h0, a + b, w, h)
  {
    if w > w1 {
      var p :| p in b && p.x + 1 == w;
      assert p in a + b;
    } else if w > w0 {
      var p :| p in a && p.x + 1 == w;
      assert p in a + b;
    }
    if h > h1 {
      var p :| p in b && p.y + 1 == h;
      assert p in a + b;
    } else if h > h0 {
      var p :| p in a && p.y + 1 == h;
      assert p in a + b;
    }
  }

  /** Adds placements to the cells and grows the box. */
  method Overlay(cells0: map<Cell, byte>, w0: nat, h0: nat, ps: seq<Placement>)
    returns (cells: map<Cell, byte>, w: nat, h: nat)
    ensures cells == cells0 + CellsOf(ps)
    ensures GrownBox(w0, h0, ps, w, h)
  {
    hide GrownBox, CellsOf;
    cells, w, h := cells0, w0, h0;
    GrownBoxStarts(w0, h0);
    CellsOfNothing();
    for i := 0 to |ps|
      invariant cells == cells0 + CellsOf(ps[..i])
      invariant GrownBox(w0, h0, ps[..i], w, h)
    {
      var p := ps[i];
      assert ps[..i + 1] == ps[..i] + [p];
      CellsOfPush(ps[..i], p);
      GrownBoxNext(w, h, p);
      GrownBoxConcat(w0, h0, ps[..i], w, h, [p], if p.x + 1 > w then p.x + 1 else w, if p.y + 1 > h then p.y + 1 else h);
      cells := cells[(p.x, p.y) := p.color];
      if p.x + 1 > w {
        w := p.x + 1;
      }
      if p.y + 1 > h {
        h := p.y + 1;
      }
    }
    assert ps[..|ps|] == ps;
  }

  lemma CellsOfNothing()
    ensures CellsOf([]) == map[]
  {}

  lemma CellsOfPush(ps: seq<Placement>, p: Placement)
    ensures CellsOf(ps + [p]) == CellsOf(ps)[(p.x, p.y) := p.color]
  {
    assert (ps + [p])[..|ps|] == ps;
  }

  lemma GrownBoxStarts(w: nat, h: nat)
    ensures GrownBox(w, h, [], w, h)
  {}

  lemma GrownBoxNext(w: nat, h: nat, p: Placement)
    ensures GrownBox(w, h, [p], if p.x + 1 > w then p.x + 1 else w, if p.y + 1 > h then p.y + 1 else h)
  {}

  /** The cells of the box read before (x1, y1), in order. */
  ghost predicate Swept(cells: map<Cell, byte>, w: nat, x1: int, y1: int, ps: seq<Placement>) {
    && Scanline(ps)
    && forall p :: p in ps <==> Shows(cells, p) && 0 <= p.y && 0 <= p.x < w && Earlier(p.x, p.y, x1, y1)
  }

  lemma SweptNext(cells: map<Cell, byte>, w: nat, x: nat, y: nat, ps: seq<Placement>)
    requires x < w && Swept(cells, w, x, y, ps)
    ensures Swept(cells, w, x + 1, y, if (x, y) in cells then ps + [Placement(x, y, cells[(x, y)])] else ps)
  {
    if (x, y) in cells {
      var q := Placement(x, y, cells[(x, y)]);
      assert forall p :: p in ps + [q] <==> p in ps || p == q;
      assert forall i :: 0 <= i < |ps| ==> ps[i] in ps;
    }
  }

  lemma SweptRow(cells: map<Cell, byte>, w: nat, y: nat, ps: seq<Placement>)
    requires Swept(cells, w, w, y, ps)
    ensures Swept(cells, w, 0, y + 1, ps)
  {}

  lemma SweptAll(cells: map<Cell, byte>, w: nat, h: nat, ps: seq<Placement>)
    requires Swept(cells, w, 0, h, ps)
    ensures Scanline(ps) && CellsOf(ps) == Clip(cells, w, h)
  {
    hide CellsOf, Scanline;
    forall c: Cell, color: byte
      ensures Shows(CellsOf(ps), Placement(c.0, c.1, color)) <==> Shows(Clip(cells, w, h), Placement(c.0, c.1, color))
    {
      CellsOfScanline(ps, Placement(c.0, c.1, color));
    }
    SameShown(CellsOf(ps), Clip(cells, w, h));
  }

  lemma GrownBoxCovers(w0: nat, h0: nat, ps: seq<Placement>, w: nat, h: nat)
    requires GrownBox(w0, h0, ps, w, h)
    ensures Clip(CellsOf(ps), w, h) == OnPage(CellsOf(ps))
  {
    forall c | c in CellsOf(ps)
      ensures c.0 < w && c.1 < h
    {
      CellHasPlacement(ps, c);
    }
  }

  lemma {:induction false} CellHasPlacement(ps: seq<Placement>, c: Cell)
    requires c in CellsOf(ps)
    ensures Placement(c.0, c.1, CellsOf(ps)[c]) in ps
  {
    var n := |ps| - 1;
    if c != (ps[n].x, ps[n].y) {
      CellHasPlacement(ps[..n], c);
    }
  }

  /** The cells not left of or above the origin. */
  function OnPage(cells: map<Cell, byte>): map<Cell, byte> {
    map c | c in cells && 0 <= c.0 && 0 <= c.1 :: cells[c]
  }

  /** Adds placements to a drawing: the last at a cell wins, the box grows to the right and down, and
      cells left of or above the origin are dropped. */
  method Compose(base: Blueprint, more: seq<Placement>) returns (bp: Blueprint)
    ensures Scanline(bp.placements)
    ensures CellsOf(bp.placements) == OnPage(CellsOf(base.placements) + CellsOf(more))
    ensures GrownBox(base.w, base.h, base.placements + more, bp.w, bp.h)
  {
    hide GrownBox, Scanline, CellsOf, Swept;
    var cells, w1, h1 := Overlay(map[], base.w, base.h, base.placements);
    var w, h;
    cells, w, h := Overlay(cells, w1, h1, more);
    GrownBoxConcat(base.w, base.h, base.placements, w1, h1, more, w, h);
    CellsOfConcat(base.placements, more);
    assert cells == CellsOf(base.placements + more);
    var ps: seq<Placement> := [];
    SweptNone(cells, w);
    for y := 0 to h
      invariant Swept(cells, w, 0, y, ps)
    {
      for x := 0 to w
        invariant Swept(cells, w, x, y, ps)
      {
        SweptNext(cells, w, x, y, ps);
        if (x, y) in cells {
          ps := ps + [Placement(x, y, cells[(x, y)])];
        }
      }
      SweptRow(cells, w, y, ps);
    }
    SweptAll(cells, w, h, ps);
    GrownBoxCovers(base.w, base.h, base.placements + more, w, h);
    return Blueprint(w, h, ps);
  }

  lemma SweptNone(cells: map<Cell, byte>, w: nat)
    ensures Swept(cells, w, 0, 0, [])
  {}
}
