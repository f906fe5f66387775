/** `ParseUtil`: lenient number parsing of supplier price-list cells, and `Clean`. The
    culture-specific parsers of .NET are foreign code; what is modelled is the clean-up of the
    text and the order in which the parsers are tried. */
module ParseUtil {
  import opened Wrappers
  import opened Text
  import opened Int32

  /** The .NET number parsers the importers call, each `None` where `TryParse` fails:
      `decimal.TryParse(s, NumberStyles.Any, pt-PT)`, the same under the invariant culture,
      `int.TryParse(s, NumberStyles.Any, pt-PT)`, the same under the invariant culture,
      `int.TryParse(s, NumberStyles.Integer, invariant culture)` and `int.TryParse(s)` under
      the current culture. */
  datatype NumberParsers = NumberParsers(
    decimalPt: string -> Option<real>,
    decimalInvariant: string -> Option<real>,
    intPt: string -> Option<int32>,
    intInvariant: string -> Option<int32>,
    intIntegerInvariant: string -> Option<int32>,
    intCurrent: string -> Option<int32>)

  /** The first present value of a list of attempts: a reference definition of a fallback chain. */
  function FirstSome<T>(xs: seq<Option<T>>): (r: Option<T>)
    ensures r.Some? <==> exists i :: 0 <= i < |xs| && xs[i].Some?
    ensures r.Some? ==> exists i :: 0 <= i < |xs| && xs[i] == r && forall j :: 0 <= j < i ==> xs[j].None?
  {
    if xs == [] then None
    else if xs[0].Some? then xs[0]
    else
      var r := FirstSome(xs[1..]);
      assert forall i :: 0 < i < |xs| ==> xs[i] == xs[1..][i - 1];
      r
  }

  predicate IsQuote(c: char) {
    c == '"' || c == '\''
  }

  /** `s.Trim().Trim('"', '\'')`. */
  function Unquote(s: string): string {
    TrimBy(Trim(s), IsQuote)
  }

  /** `TryDecimal`: blank input gives nothing; otherwise the cleaned text is tried under
      pt-PT, then under the invariant culture, then under the invariant culture with every
      `,` replaced by `.`. */
  function TryDecimal(p: NumberParsers, s: Option<string>): Option<real> {
    if IsNullOrWhiteSpace(s) then None
    else
      var t := Unquote(s.value);
      var pt := p.decimalPt(t);
      if pt.Some? then pt
      else
        var inv := p.decimalInvariant(t);
        if inv.Some? then inv
        else p.decimalInvariant(ReplaceChar(t, ',', '.'))
  }

  /** `TryInt`: blank input gives nothing; otherwise the cleaned text under pt-PT, then under
      the invariant culture. */
  function TryInt(p: NumberParsers, s: Option<string>): Option<int32> {
    if IsNullOrWhiteSpace(s) then None
    else
      var t := Unquote(s.value);
      var pt := p.intPt(t);
      if pt.Some? then pt else p.intInvariant(t)
  }

  /** `TryDecimal` returns the first success of its three attempts, in order, and nothing for
      blank input. */
  lemma TryDecimalFallback(p: NumberParsers, s: Option<string>)
    ensures IsNullOrWhiteSpace(s) ==> TryDecimal(p, s) == None
    ensures !IsNullOrWhiteSpace(s) ==>
      var t := Unquote(s.value);
      TryDecimal(p, s) == FirstSome([p.decimalPt(t), p.decimalInvariant(t), p.decimalInvariant(ReplaceChar(t, ',', '.'))])
  {
    if !IsNullOrWhiteSpace(s) {
      var t := Unquote(s.value);
      var xs := [p.decimalPt(t), p.decimalInvariant(t), p.decimalInvariant(ReplaceChar(t, ',', '.'))];
      assert xs[1..][1..] == [xs[2]];
      assert FirstSome([xs[2]]) == xs[2];
    }
  }

  /** `TryInt` returns the first success of its two attempts, in order, and nothing for blank
      input. */
  lemma TryIntFallback(p: NumberParsers, s: Option<string>)
    ensures IsNullOrWhiteSpace(s) ==> TryInt(p, s) == None
    ensures !IsNullOrWhiteSpace(s) ==>
      var t := Unquote(s.value);
      TryInt(p, s) == FirstSome([p.intPt(t), p.intInvariant(t)])
  {
    if !IsNullOrWhiteSpace(s) {
      var t := Unquote(s.value);
      var xs := [p.intPt(t), p.intInvariant(t)];
      assert xs[1..] == [xs[1]];
      assert FirstSome([xs[1]]) == xs[1];
    }
  }

  /** The text handed to the parsers is the trimmed text with its leading and trailing quote
      characters removed, and nothing else: no quote is left at either end, but white space
      that sat inside the quotes stays. */
  lemma UnquoteEnds(s: string)
    ensures var w, t := Trim(s), Unquote(s); var i := LeadingCount(w, IsQuote);
      && (t == [] || (!IsQuote(t[0]) && !IsQuote(t[|t| - 1])))
      && i + |t| <= |w| && t == w[i..i + |t|]
      && (forall k :: i + |t| <= k < |w| ==> IsQuote(w[k]))
  {
  }

  /** A quoted number with a space inside the quotes keeps that space. */
  lemma QuotedSpaceKept()
    ensures Unquote("\" 1\"") == " 1"
  {
    var w := "\" 1\"";
    assert LeadingCount(w, IsWhiteSpace) == 0;
    assert TrailingCount(w, IsWhiteSpace) == 0;
    assert Trim(w) == w;
    assert LeadingCount(w[1..], IsQuote) == 0;
    assert LeadingCount(w, IsQuote) == 1;
    assert TrailingCount(w[1..][..2], IsQuote) == 0;
    assert TrailingCount(w[1..], IsQuote) == 1;
  }

  /** `Clean`: nothing for blank input, otherwise the trimmed text. */
  function Clean(s: Option<string>): (r: Option<string>)
    ensures r.None? <==> IsNullOrWhiteSpace(s)
    ensures r.Some? ==> r.value != [] && Unpadded(r.value) && !Blank(r.value)
  {
    if IsNullOrWhiteSpace(s) then None
    else
      TrimUnpadded(s.value);
      Some(Trim(s.value))
  }

  /** Cleaning a cleaned value changes nothing. */
  lemma CleanIdempotent(s: Option<string>)
    ensures Clean(Clean(s)) == Clean(s)
  {
    if Clean(s).Some? {
      TrimUnpadded(Clean(s).value);
    }
  }
}
