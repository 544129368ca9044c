// The Accept-Language header (section 12.5.4 of RFC 9110) as the code reads it.
module Language {
  import opened Text

  const DEFAULT_LANGUAGE := "en"
  const SUPPORTED := {"en", "th"}

  // unicode.IsSpace
  predicate Space(c: char) {
    var v := c as int;
    9 <= v <= 13 || v == 0x20 || v == 0x85 || v == 0xA0 || v == 0x1680 || 0x2000 <= v <= 0x200A
    || v == 0x2028 || v == 0x2029 || v == 0x202F || v == 0x205F || v == 0x3000
  }

  // The primary subtag of one element of the header.
  function PrimaryOf(element: string): string {
    var tag := Trim(Before(element, ';'), Space);
    ToLower(Trim(Before(tag, '-'), Space))
  }

  function FirstSupported(elements: seq<string>): string {
    if elements == [] then DEFAULT_LANGUAGE
    else if PrimaryOf(elements[0]) in SUPPORTED then PrimaryOf(elements[0])
    else FirstSupported(elements[1..])
  }

  method ResolveLanguage(acceptLanguage: string) returns (lang: string)
    ensures lang == FirstSupported(Split(acceptLanguage, ','))
  {
    if acceptLanguage == "" {
      assert PrimaryOf("") == "";
      return DEFAULT_LANGUAGE;
    }
    var elements := Split(acceptLanguage, ',');
    var i := 0;
    assert elements[0..] == elements;
    while i < |elements|
      invariant 0 <= i <= |elements|
      invariant FirstSupported(elements[i..]) == FirstSupported(elements)
    {
      assert elements[i..][1..] == elements[i + 1..];
      var tag := Trim(Before(elements[i], ';'), Space);
      lang := ToLower(Trim(Before(tag, '-'), Space));
      if lang in SUPPORTED {
        return;
      }
      i := i + 1;
    }
    lang := DEFAULT_LANGUAGE;
  }

  // ---- headers written from language ranges ----

  // The white space of Unicode, one by one.
  predicate White(c: char) {
    c in {'\t', '\n', '\U{0B}', '\U{0C}', '\r', ' ', '\U{85}', '\U{A0}', '\U{1680}',
          '\U{2000}', '\U{2001}', '\U{2002}', '\U{2003}', '\U{2004}', '\U{2005}', '\U{2006}', '\U{2007}',
          '\U{2008}', '\U{2009}', '\U{200A}', '\U{2028}', '\U{2029}', '\U{202F}', '\U{205F}', '\U{3000}'}
  }

  lemma SpaceIsWhite(c: char)
    ensures Space(c) <==> White(c)
  {
  }

  // One range with blanks around it, further subtags, and parameters such as a weight.
  datatype Range = Range(before: string, primary: string, between: string, subtags: Option<string>,
                         after: string, params: Option<string>)

  predicate WellFormed(r: Range) {
    && Blank(r.before, White) && Blank(r.between, White) && Blank(r.after, White)
    && Free(r.primary, ',') && Free(r.primary, ';') && Free(r.primary, '-')
    && (r.primary != "" ==> !White(r.primary[0]) && !White(r.primary[|r.primary| - 1]))
    && (r.subtags.Some? ==> Free(r.subtags.value, ',') && Free(r.subtags.value, ';'))
    && (r.params.Some? ==> Free(r.params.value, ','))
  }

  // In terms of the code's blanks.
  lemma RangeBlanks(r: Range)
    requires WellFormed(r)
    ensures Blank(r.before, Space) && Blank(r.between, Space) && Blank(r.after, Space)
    ensures Trim(r.primary, Space) == r.primary
  {
    forall c ensures Space(c) <==> White(c) {
      SpaceIsWhite(c);
    }
    TrimFixed(r.primary, Space);
  }

  function After(sep: char, text: Option<string>): string {
    match text
    case None => ""
    case Some(t) => [sep] + t
  }

  function TagText(r: Range): string {
    r.before + r.primary + r.between + After('-', r.subtags) + r.after
  }

  function RangeText(r: Range): string {
    TagText(r) + After(';', r.params)
  }

  function RangeTexts(rs: seq<Range>): (texts: seq<string>)
    ensures |texts| == |rs|
    ensures forall i :: 0 <= i < |rs| ==> texts[i] == RangeText(rs[i])
  {
    if rs == [] then [] else [RangeText(rs[0])] + RangeTexts(rs[1..])
  }

  function Header(rs: seq<Range>): string {
    Join(RangeTexts(rs), ",")
  }

  lemma {:induction false} BlankIsFree(s: string, c: char)
    requires Blank(s, Space) && !Space(c)
    ensures Free(s, c)
  {
    forall i | 0 <= i < |s| ensures s[i] != c {
      assert Space(s[i]);
    }
  }

  lemma RangeHasNoComma(r: Range)
    requires WellFormed(r)
    ensures Free(RangeText(r), ',')
    ensures Free(TagText(r), ';')
  {
    RangeBlanks(r);
    BlankIsFree(r.before, ',');
    BlankIsFree(r.between, ',');
    BlankIsFree(r.after, ',');
    BlankIsFree(r.before, ';');
    BlankIsFree(r.between, ';');
    BlankIsFree(r.after, ';');
  }

  // Trimming a text that ends at a dash only takes blanks from its front.
  lemma CutAtDash(head: string, tail: string)
    requires Free(head, '-') && tail != "" && tail[0] == '-'
    ensures Trim(Before(Trim(head + tail, Space), '-'), Space) == Trim(head, Space)
  {
    var core := head + tail;
    var i, j := CoreExists(core, Space);
    assert core[|head|] == '-';
    CoreHolds(core, Space, i, j, |head|);
    assert core[i..j] == head[i..] + core[|head|..j];
    BeforeStops(head[i..], core[|head|..j], '-');
    assert head[..i] == core[..i];
    TrimPadded(head[..i], head[i..], "", Space);
    assert head[..i] + head[i..] + "" == head;
  }

  lemma PrimaryBeforeDash(r: Range)
    requires WellFormed(r)
    ensures Trim(Before(Trim(TagText(r), Space), '-'), Space) == r.primary
  {
    var head, tail := r.primary + r.between, After('-', r.subtags);
    RangeBlanks(r);
    assert TagText(r) == r.before + (head + tail) + r.after;
    TrimPadded(r.before, head + tail, r.after, Space);
    BlankIsFree(r.between, '-');
    TrimPadded("", r.primary, r.between, Space);
    assert head == "" + r.primary + r.between;
    if r.subtags.Some? {
      CutAtDash(head, tail);
    } else {
      assert head + tail == head;
      BeforeStops(r.primary, "", '-');
      assert r.primary + "" == r.primary;
    }
  }

  lemma PrimaryOfRange(r: Range)
    requires WellFormed(r)
    ensures PrimaryOf(RangeText(r)) == ToLower(r.primary)
  {
    RangeHasNoComma(r);
    BeforeStops(TagText(r), After(';', r.params), ';');
    PrimaryBeforeDash(r);
  }

  // English and Thai, in any case.
  predicate English(r: Range) {
    |r.primary| == 2 && r.primary[0] in {'e', 'E'} && r.primary[1] in {'n', 'N'}
  }

  predicate Thai(r: Range) {
    |r.primary| == 2 && r.primary[0] in {'t', 'T'} && r.primary[1] in {'h', 'H'}
  }

  predicate Supported(r: Range) {
    English(r) || Thai(r)
  }

  lemma SupportedIs(r: Range)
    ensures Supported(r) <==> ToLower(r.primary) in SUPPORTED
    ensures Supported(r) ==> ToLower(r.primary) == if English(r) then "en" else "th"
  {
    var low := ToLower(r.primary);
    assert low == "en" <==> |low| == 2 && low[0] == 'e' && low[1] == 'n';
    assert low == "th" <==> |low| == 2 && low[0] == 't' && low[1] == 'h';
  }

  lemma {:induction false} FirstSupportedRange(rs: seq<Range>, k: nat)
    requires k <= |rs|
    requires forall i :: 0 <= i < |rs| ==> WellFormed(rs[i])
    requires forall i :: 0 <= i < k ==> !Supported(rs[i])
    requires k < |rs| ==> Supported(rs[k])
    ensures FirstSupported(RangeTexts(rs)) == if k < |rs| && Thai(rs[k]) then "th" else "en"
  {
    if rs != [] {
      PrimaryOfRange(rs[0]);
      SupportedIs(rs[0]);
      assert RangeTexts(rs)[1..] == RangeTexts(rs[1..]);
      if k > 0 {
        FirstSupportedRange(rs[1..], k - 1);
      }
    }
  }

  // The first supported range in header order wins, or else "en": weights, subtags
  // and everything after that range make no difference.
  lemma FirstInHeaderWins(rs: seq<Range>, k: nat)
    requires rs != [] && k <= |rs|
    requires forall i :: 0 <= i < |rs| ==> WellFormed(rs[i])
    requires forall i :: 0 <= i < k ==> !Supported(rs[i])
    requires k < |rs| ==> Supported(rs[k])
    ensures FirstSupported(Split(Header(rs), ',')) == if k < |rs| && Thai(rs[k]) then "th" else "en"
  {
    forall i | 0 <= i < |rs| ensures Free(RangeTexts(rs)[i], ',') {
      RangeHasNoComma(rs[i]);
    }
    SplitJoin(RangeTexts(rs), ',');
    FirstSupportedRange(rs, k);
  }

  // ---- every header is such a list of ranges ----

  // Blanks, what stands between them, and blanks.
  lemma HeadParts(head: string) returns (before: string, primary: string, between: string)
    ensures head == before + primary + between && Blank(before, White) && Blank(between, White)
    ensures primary != "" ==> !White(primary[0]) && !White(primary[|primary| - 1])
    ensures forall c :: Free(head, c) ==> Free(primary, c)
  {
    var i, j := CoreExists(head, White);
    before, primary, between := head[..i], head[i..j], head[j..];
    assert head == before + primary + between;
  }

  lemma FreePart(s: string, part: string, c: char)
    requires part <= s && Free(s, c)
    ensures Free(part, c) && (Rest(s, part).Some? ==> Free(Rest(s, part).value, c))
  {
    assert forall i :: 0 <= i < |part| ==> part[i] == s[i];
  }

  lemma AsRange(element: string) returns (r: Range)
    requires Free(element, ',')
    ensures WellFormed(r) && RangeText(r) == element
  {
    var tag := Before(element, ';');
    var head := Before(tag, '-');
    BeforeIsFirst(element, ';');
    BeforeIsFirst(tag, '-');
    FreePart(element, tag, ',');
    FreePart(tag, head, ',');
    FreePart(tag, head, ';');
    var before, primary, between := HeadParts(head);
    r := Range(before, primary, between, Rest(tag, head), "", Rest(element, tag));
    RestFollows(tag, head, '-');
    RestFollows(element, tag, ';');
    NothingAfter(r, head);
  }

  lemma NothingAfter(r: Range, head: string)
    requires r.after == "" && head == r.before + r.primary + r.between
    ensures TagText(r) == head + After('-', r.subtags)
  {
  }

  // What follows the part of s before its first separator, if there is one.
  function Rest(s: string, part: string): Option<string>
    requires |part| <= |s|
  {
    if |part| < |s| then Some(s[|part| + 1..]) else None
  }

  lemma RestFollows(s: string, part: string, sep: char)
    requires part <= s && (|part| < |s| ==> s[|part|] == sep)
    ensures s == part + After(sep, Rest(s, part))
  {
    if |part| < |s| {
      assert s == part + ([s[|part|]] + s[|part| + 1..]);
    }
  }

  lemma {:induction false} AsRanges(elements: seq<string>) returns (rs: seq<Range>)
    requires forall i :: 0 <= i < |elements| ==> Free(elements[i], ',')
    ensures RangeTexts(rs) == elements && forall i :: 0 <= i < |rs| ==> WellFormed(rs[i])
  {
    if elements == [] {
      rs := [];
    } else {
      var r := AsRange(elements[0]);
      var rest := AsRanges(elements[1..]);
      rs := [r] + rest;
      assert rs[1..] == rest && elements == [elements[0]] + elements[1..];
    }
  }

  // So the first supported range of any header at all wins.
  lemma EveryHeader(header: string) returns (rs: seq<Range>)
    ensures rs != [] && Header(rs) == header && forall i :: 0 <= i < |rs| ==> WellFormed(rs[i])
  {
    SplitIs(header, ',');
    rs := AsRanges(Split(header, ','));
  }
}
