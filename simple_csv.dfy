/** `SimpleCsv.Split`: a one-character-separator split that does not split inside double
    quotes. Quote characters toggle the quoted state and stay in the field text. */
module SimpleCsv {
  import opened Text

  const QUOTE: char := '"'

  /** The splitter's state after a prefix of the line: the finished fields, the field being
      built and whether an odd number of quotes has been seen since the last split. */
  datatype Splitter = Splitter(done: seq<string>, cur: string, inQuotes: bool)

  /** One character of the `foreach` body. */
  function Feed(st: Splitter, ch: char, sep: char): Splitter {
    if ch == QUOTE then Splitter(st.done, st.cur + [ch], !st.inQuotes)
    else if ch == sep && !st.inQuotes then Splitter(st.done + [st.cur], "", st.inQuotes)
    else Splitter(st.done, st.cur + [ch], st.inQuotes)
  }

  /** The state after the whole of `line`. */
  function Scan(line: string, sep: char): Splitter {
    if line == [] then Splitter([], "", false)
    else Feed(Scan(line[..|line| - 1], sep), line[|line| - 1], sep)
  }

  /** The fields `Split` returns: the finished ones and then the last one. */
  function Fields(line: string, sep: char): seq<string> {
    var st := Scan(line, sep);
    st.done + [st.cur]
  }

  /** `SimpleCsv.Split`. */
  method Split(line: string, sep: char) returns (fields: seq<string>)
    ensures fields == Fields(line, sep)
    ensures |fields| >= 1 && Join(fields, sep) == line
  {
    var list: seq<string> := [];
    var inQ := false;
    var cur: string := "";
    var i := 0;
    while i < |line|
      invariant 0 <= i <= |line|
      invariant Splitter(list, cur, inQ) == Scan(line[..i], sep)
    {
      var ch := line[i];
      if ch == QUOTE {
        inQ := !inQ;
        cur := cur + [ch];
      } else if ch == sep && !inQ {
        list := list + [cur];
        cur := "";
      } else {
        cur := cur + [ch];
      }
      assert line[..i + 1][..i] == line[..i];
      i := i + 1;
    }
    assert line[..|line|] == line;
    fields := list + [cur];
    FieldsJoin(line, sep);
  }

  /** Joining the fields with the separator gives back the line: nothing is dropped, quotes
      included. */
  lemma {:induction false} FieldsJoin(line: string, sep: char)
    ensures Join(Fields(line, sep), sep) == line
  {
    if line != [] {
      var init, ch := line[..|line| - 1], line[|line| - 1];
      var st := Scan(init, sep);
      var fs := st.done + [st.cur];
      FieldsJoin(init, sep);
      assert fs[..|fs| - 1] == st.done;
      if ch != QUOTE && ch == sep && !st.inQuotes {
        var gs := fs + [""];
        assert Fields(line, sep) == gs;
        assert gs[..|gs| - 1] == fs;
      } else {
        assert Fields(line, sep) == fs[..|fs| - 1] + [fs[|fs| - 1] + [ch]];
        JoinAppendChar(fs, sep, ch);
      }
      assert init + [ch] == line;
    }
  }

  /** The position `i` of `line` ends a field: a separator, which is not the quote character,
      preceded by an even number of quotes. */
  predicate SplitsAt(line: string, sep: char, i: nat)
    requires i < |line|
  {
    line[i] == sep && sep != QUOTE && CountChar(line[..i], QUOTE) % 2 == 0
  }

  /** The number of positions where the line is split, counted from the back. */
  function UnquotedSeps(line: string, sep: char): nat {
    if line == [] then 0
    else UnquotedSeps(line[..|line| - 1], sep) + if SplitsAt(line, sep, |line| - 1) then 1 else 0
  }

  /** The splitter is inside quotes exactly after an odd number of quotes, and it has closed one
      field per split position. */
  lemma {:induction false} ScanCounts(line: string, sep: char)
    ensures Scan(line, sep).inQuotes <==> CountChar(line, QUOTE) % 2 == 1
    ensures |Scan(line, sep).done| == UnquotedSeps(line, sep)
  {
    if line != [] {
      var init := line[..|line| - 1];
      ScanCounts(init, sep);
      assert line[..|line| - 1] == init;
    }
  }

  /** There is one field more than there are separators outside quotes. */
  lemma FieldCount(line: string, sep: char)
    ensures |Fields(line, sep)| == 1 + UnquotedSeps(line, sep)
  {
    ScanCounts(line, sep);
  }

  /** Without quote characters the split is the plain `string.Split(sep)`. */
  lemma {:induction false} UnquotedIsPlainSplit(line: string, sep: char)
    requires QUOTE !in line
    ensures Fields(line, sep) == SplitOn(line, sep)
    ensures !Scan(line, sep).inQuotes
  {
    if line != [] {
      var init := line[..|line| - 1];
      assert QUOTE !in init by {
        forall k | 0 <= k < |init| ensures init[k] != QUOTE { assert init[k] == line[k]; }
      }
      UnquotedIsPlainSplit(init, sep);
      SplitOnLast(line, sep);
      var st := Scan(init, sep);
      var fs := st.done + [st.cur];
      assert fs[..|fs| - 1] == st.done;
    }
  }

  /** Every separator inside a field comes after an odd number of quotes within that field. */
  ghost predicate SepsQuoted(f: string, sep: char) {
    forall i :: 0 <= i < |f| && f[i] == sep && sep != QUOTE ==> CountChar(f[..i], QUOTE) % 2 == 1
  }

  ghost predicate Consistent(st: Splitter, sep: char) {
    && (forall k :: 0 <= k < |st.done| ==> SepsQuoted(st.done[k], sep))
    && SepsQuoted(st.cur, sep)
    && (st.inQuotes <==> CountChar(st.cur, QUOTE) % 2 == 1)
  }

  lemma CountCharSnoc(s: string, c: char, x: char)
    ensures CountChar(s + [x], c) == CountChar(s, c) + if x == c then 1 else 0
  {
    assert (s + [x])[..|s|] == s;
  }

  lemma FeedConsistent(st: Splitter, ch: char, sep: char)
    requires Consistent(st, sep)
    ensures Consistent(Feed(st, ch, sep), sep)
  {
    var st' := Feed(st, ch, sep);
    if st'.cur == st.cur + [ch] {
      var c := st.cur + [ch];
      CountCharSnoc(st.cur, QUOTE, ch);
      forall i | 0 <= i < |c| && c[i] == sep && sep != QUOTE
        ensures CountChar(c[..i], QUOTE) % 2 == 1
      {
        assert c[..i] == st.cur[..i];
        if i < |st.cur| {
          assert st.cur[i] == sep;
        }
      }
    } else {
      assert CountChar("", QUOTE) == 0;
    }
  }

  lemma {:induction false} ScanConsistent(line: string, sep: char)
    ensures Consistent(Scan(line, sep), sep)
  {
    if line != [] {
      ScanConsistent(line[..|line| - 1], sep);
      FeedConsistent(Scan(line[..|line| - 1], sep), line[|line| - 1], sep);
    }
  }

  /** A separator inside a returned field is always inside quotes. */
  lemma FieldsSepsQuoted(line: string, sep: char)
    ensures forall k :: 0 <= k < |Fields(line, sep)| ==> SepsQuoted(Fields(line, sep)[k], sep)
  {
    ScanConsistent(line, sep);
  }
}
