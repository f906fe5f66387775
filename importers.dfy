/** The supplier price-list readers: `AlsoTxtImporter` (tab-separated, fixed columns) and
    `EetCsvImporter` (`;`-separated, optional header line). Both turn the decoded lines of a
    file into `SupplierRecord`s, in line order; stream decoding is not part of this model. */
module Importers {
  import opened Wrappers
  import opened Text
  import opened Int32
  import opened Records
  import opened ParseUtil

  /** One line the reader returned, and whether cancellation had been requested at the check
      made for it. */
  datatype Line = Line(text: string, cancelled: bool)

  /** How a reader ended: the records it yielded, and whether it raised
      `OperationCanceledException` instead of ending normally. */
  datatype Outcome = Outcome(records: seq<SupplierRecord>, raised: bool)

  function Seq<T>(o: Option<T>): (s: seq<T>)
    ensures |s| <= 1
  {
    if o.Some? then [o.value] else []
  }

  /** A record as an importer yields it: no ids, no supplier, `ImportedAt` left at its default. */
  function NewRecord(sku: string, name: Option<string>, price: Option<real>, stock: Option<int32>, raw: string): SupplierRecord {
    SupplierRecord(0, 0, None, sku, name, price, stock, DEFAULT_INSTANT, raw)
  }

  /** The lines handled before the first one at which cancellation is seen. */
  function Live(lines: seq<Line>): (r: seq<Line>)
    ensures |r| <= |lines| && r == lines[..|r|]
    ensures forall i :: 0 <= i < |r| ==> !r[i].cancelled
    ensures |r| < |lines| ==> lines[|r|].cancelled
  {
    if lines == [] || lines[0].cancelled then []
    else
      var r := [lines[0]] + Live(lines[1..]);
      assert forall i :: 1 <= i < |r| ==> r[i] == Live(lines[1..])[i - 1];
      r
  }

  // ---------- ALSO: tab-separated text ----------

  const TAB: char := '\t'
  const ALSO_MIN_COLUMNS: nat := 10

  /** One ALSO line: blank lines and lines of fewer than ten tab-separated columns give
      nothing; any other line gives one record, whatever its first column holds. An
      unparsable stock or price is 0, as `TryParse` leaves it. */
  function AlsoLine(p: NumberParsers, line: string): (r: Option<SupplierRecord>)
    ensures r.Some? ==> r.value.raw == line && Unpadded(r.value.sku)
    ensures r.Some? ==> r.value.price.Some? && r.value.stock.Some? && r.value.name.Some?
  {
    if Blank(line) then None
    else
      var parts := SplitOn(line, TAB);
      if |parts| < ALSO_MIN_COLUMNS then None
      else
        TrimUnpadded(parts[0]);
        var stock := p.intIntegerInvariant(Trim(parts[6])).GetOr(0);
        var price := p.decimalInvariant(Trim(parts[7])).GetOr(0.0);
        Some(NewRecord(Trim(parts[0]), Some(Trim(parts[5])), Some(price), Some(stock), line))
  }

  /** A line is kept exactly when it is not blank and has at least nine tab characters. */
  lemma AlsoLineKept(p: NumberParsers, line: string)
    ensures AlsoLine(p, line).Some? <==> !Blank(line) && CountChar(line, TAB) >= ALSO_MIN_COLUMNS - 1
  {
    SplitOnPieces(line, TAB);
  }

  /** The records of the lines `ls`, in order. */
  function AlsoLines(p: NumberParsers, ls: seq<Line>): seq<SupplierRecord> {
    if ls == [] then []
    else AlsoLines(p, ls[..|ls| - 1]) + Seq(AlsoLine(p, ls[|ls| - 1].text))
  }

  /** The records of two stretches of lines are the records of each, one after the other. */
  lemma {:induction false} AlsoLinesAppend(p: NumberParsers, a: seq<Line>, b: seq<Line>)
    ensures AlsoLines(p, a + b) == AlsoLines(p, a) + AlsoLines(p, b)
    decreases |b|
  {
    if b == [] {
      assert a + b == a;
    } else {
      var b', x := b[..|b| - 1], b[|b| - 1];
      assert (a + b)[..|a + b| - 1] == a + b';
      assert (a + b)[|a + b| - 1] == x;
      AlsoLinesAppend(p, a, b');
      assert AlsoLines(p, a + b) == AlsoLines(p, a + b') + Seq(AlsoLine(p, x.text));
      assert AlsoLines(p, b) == AlsoLines(p, b') + Seq(AlsoLine(p, x.text));
    }
  }

  /** Every record comes from a kept line and carries that line as `Raw`. */
  lemma {:induction false} AlsoLinesFrom(p: NumberParsers, ls: seq<Line>)
    ensures |AlsoLines(p, ls)| <= |ls|
    ensures forall i :: 0 <= i < |AlsoLines(p, ls)| ==>
      exists j :: 0 <= j < |ls| && AlsoLine(p, ls[j].text) == Some(AlsoLines(p, ls)[i])
  {
    if ls != [] {
      var init := ls[..|ls| - 1];
      AlsoLinesFrom(p, init);
      var rs := AlsoLines(p, ls);
      forall i | 0 <= i < |rs|
        ensures exists j :: 0 <= j < |ls| && AlsoLine(p, ls[j].text) == Some(rs[i])
      {
        if i < |AlsoLines(p, init)| {
          var j :| 0 <= j < |init| && AlsoLine(p, init[j].text) == Some(AlsoLines(p, init)[i]);
          assert ls[j] == init[j];
        } else {
          assert AlsoLine(p, ls[|ls| - 1].text) == Some(rs[i]);
        }
      }
    }
  }

  /** `AlsoTxtImporter.ReadAsync`: cancellation ends the records quietly. */
  method ReadAlso(p: NumberParsers, lines: seq<Line>) returns (records: seq<SupplierRecord>)
    ensures records == AlsoLines(p, Live(lines))
  {
    records := [];
    var i := 0;
    while i < |lines|
      invariant 0 <= i <= |lines|
      invariant forall k :: 0 <= k < i ==> !lines[k].cancelled
      invariant records == AlsoLines(p, lines[..i])
    {
      if lines[i].cancelled {
        break;
      }
      assert lines[..i + 1][..i] == lines[..i];
      records := records + Seq(AlsoLine(p, lines[i].text));
      i := i + 1;
    }
    LiveUpTo(lines, i);
  }

  /** With no cancellation before `i`, and cancellation at `i` or no line left, the live lines
      are the first `i`. */
  lemma {:induction false} LiveUpTo(lines: seq<Line>, i: nat)
    requires i <= |lines|
    requires forall k :: 0 <= k < i ==> !lines[k].cancelled
    requires i < |lines| ==> lines[i].cancelled
    ensures Live(lines) == lines[..i]
  {
    var r := Live(lines);
    if |r| < i {
      assert false;
    }
    if i < |r| {
      assert false;
    }
  }

  // ---------- EET: `;`-separated text with a header line ----------

  const SEMICOLON: char := ';'

  /** The first non-blank line is dropped when it mentions any of these, ignoring case. */
  predicate IsHeader(line: string) {
    ContainsIgnoreCase(line, "SKU") || ContainsIgnoreCase(line, "UPC") || ContainsIgnoreCase(line, "Description")
  }

  /** `EetCsvImporter.TryDec`: the column after `.` → `,`, parsed under pt-PT. */
  function TryDec(p: NumberParsers, cols: seq<string>, idx: nat): (r: Option<real>)
    ensures idx >= |cols| ==> r.None?
  {
    if idx >= |cols| then None else p.decimalPt(ReplaceChar(Trim(cols[idx]), '.', ','))
  }

  /** `EetCsvImporter.TryInt`: the trimmed column, parsed under the current culture. */
  function TryIntColumn(p: NumberParsers, cols: seq<string>, idx: nat): (r: Option<int32>)
    ensures idx >= |cols| ==> r.None?
  {
    if idx >= |cols| then None else p.intCurrent(Trim(cols[idx]))
  }

  /** One EET data line: nothing when the trimmed first column is blank, otherwise one
      record; the name is absent when there is no second column. */
  function EetLine(p: NumberParsers, line: string): (r: Option<SupplierRecord>)
    ensures r.Some? ==> r.value.raw == line && !Blank(r.value.sku) && Unpadded(r.value.sku)
    ensures r.Some? ==> (r.value.name.None? <==> CountChar(line, SEMICOLON) == 0)
  {
    var cols := SplitOn(line, SEMICOLON);
    SplitOnPieces(line, SEMICOLON);
    var sku := Trim(cols[0]);
    TrimUnpadded(cols[0]);
    var name := if |cols| > 1 then Some(Trim(cols[1])) else None;
    if Blank(sku) then None
    else Some(NewRecord(sku, name, TryDec(p, cols, 2), TryIntColumn(p, cols, 3), line))
  }

  /** The first column of a line whose trimmed text is not blank gives a record, and no other
      line does. */
  lemma EetLineKept(p: NumberParsers, line: string)
    ensures EetLine(p, line).Some? <==> !Blank(SplitOn(line, SEMICOLON)[0])
  {
    var c := SplitOn(line, SEMICOLON)[0];
    TrimBlank(c);
  }

  /** Trimming neither creates nor removes non-white-space text. */
  lemma TrimBlank(s: string)
    ensures Blank(Trim(s)) <==> Blank(s)
  {
  }

  /** The reader's state: the records yielded so far and `headerSkipped`. */
  datatype EetState = EetState(records: seq<SupplierRecord>, headerSkipped: bool)

  /** One loop iteration of `EetCsvImporter.ReadAsync` on a line. */
  function EetStep(p: NumberParsers, st: EetState, line: string): EetState {
    if Blank(line) then st
    else if !st.headerSkipped && IsHeader(line) then EetState(st.records, true)
    else EetState(st.records + Seq(EetLine(p, line)), true)
  }

  /** The state after the lines `ls`, starting before any header. */
  function EetScan(p: NumberParsers, ls: seq<Line>): EetState {
    if ls == [] then EetState([], false)
    else EetStep(p, EetScan(p, ls[..|ls| - 1]), ls[|ls| - 1].text)
  }

  /** `EetCsvImporter.ReadAsync`: the records of the live lines; it raises exactly when
      cancellation is seen. */
  function EetRead(p: NumberParsers, lines: seq<Line>): (o: Outcome)
    ensures o.raised <==> exists i :: 0 <= i < |lines| && lines[i].cancelled
  {
    var live := Live(lines);
    Outcome(EetScan(p, live).records, |live| < |lines|)
  }

  /** `EetCsvImporter.ReadAsync`, line by line with its `headerSkipped` flag. */
  method ReadEet(p: NumberParsers, lines: seq<Line>) returns (o: Outcome)
    ensures o == EetRead(p, lines)
  {
    var records: seq<SupplierRecord> := [];
    var headerSkipped := false;
    var i := 0;
    while i < |lines|
      invariant 0 <= i <= |lines|
      invariant forall k :: 0 <= k < i ==> !lines[k].cancelled
      invariant EetState(records, headerSkipped) == EetScan(p, lines[..i])
    {
      if lines[i].cancelled {
        LiveUpTo(lines, i);
        return Outcome(records, true);
      }
      var line := lines[i].text;
      assert lines[..i + 1][..i] == lines[..i];
      i := i + 1;
      if Blank(line) {
        continue;
      }
      if !headerSkipped {
        headerSkipped := true;
        if IsHeader(line) {
          continue;
        }
      }
      records := records + Seq(EetLine(p, line));
    }
    LiveUpTo(lines, i);
    assert lines[..|lines|] == lines;
    o := Outcome(records, false);
  }

  /** After the header decision, each non-blank line gives what `EetLine` gives. */
  function EetBody(p: NumberParsers, ls: seq<Line>): seq<SupplierRecord> {
    if ls == [] then []
    else
      var line := ls[|ls| - 1].text;
      EetBody(p, ls[..|ls| - 1]) + if Blank(line) then [] else Seq(EetLine(p, line))
  }

  /** Once the header has been decided, the reader adds the body's records. */
  lemma {:induction false} EetScanAfterHeader(p: NumberParsers, a: seq<Line>, b: seq<Line>)
    requires EetScan(p, a).headerSkipped
    ensures EetScan(p, a + b) == EetState(EetScan(p, a).records + EetBody(p, b), true)
    decreases |b|
  {
    if b == [] {
      assert a + b == a;
    } else {
      var b', x := b[..|b| - 1], b[|b| - 1];
      assert (a + b)[..|a + b| - 1] == a + b';
      assert (a + b)[|a + b| - 1] == x;
      EetScanAfterHeader(p, a, b');
      assert EetScan(p, a + b) == EetStep(p, EetScan(p, a + b'), x.text);
      var r0, tail := EetScan(p, a).records, if Blank(x.text) then [] else Seq(EetLine(p, x.text));
      assert b[..|b| - 1] == b' && EetBody(p, b) == EetBody(p, b') + tail;
      assert (r0 + EetBody(p, b')) + tail == r0 + EetBody(p, b);
    }
  }

  /** Blank lines leave the reader where it started. */
  lemma {:induction false} EetScanBlanks(p: NumberParsers, bl: seq<Line>)
    requires forall k :: 0 <= k < |bl| ==> Blank(bl[k].text)
    ensures EetScan(p, bl) == EetState([], false)
  {
    if bl != [] {
      EetScanBlanks(p, bl[..|bl| - 1]);
    }
  }

  /** Only the first non-blank line `h` can be a header, and it is dropped exactly when it
      mentions SKU, UPC or Description; every later line is read as data. */
  lemma EetHeaderRule(p: NumberParsers, bl: seq<Line>, h: Line, rest: seq<Line>)
    requires forall k :: 0 <= k < |bl| ==> Blank(bl[k].text)
    requires !Blank(h.text)
    ensures EetScan(p, bl + [h] + rest).records
      == (if IsHeader(h.text) then [] else Seq(EetLine(p, h.text))) + EetBody(p, rest)
  {
    EetScanBlanks(p, bl);
    var a := bl + [h];
    assert a[..|a| - 1] == bl && a[|a| - 1] == h;
    var st := EetScan(p, a);
    assert st == EetStep(p, EetState([], false), h.text);
    assert st.records == if IsHeader(h.text) then [] else Seq(EetLine(p, h.text));
    EetScanAfterHeader(p, a, rest);
  }
}
