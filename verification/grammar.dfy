/**
 * The line patterns of the Tecplot reader (src/TecplotLoader.cpp:18-74) and
 * the `parse*` matchers that apply them (src/TecplotLoader.cpp:509-705).
 *
 * Every structural pattern is anchored at both ends and built from literal
 * words, `[[:space:]]` runs and digit runs. Each piece is followed by a
 * character the previous piece cannot consume (a space run is followed by a
 * letter, `=`, `"`, `,` or a digit; a digit run by a space, `,` or a letter),
 * so greedy left-to-right scanning decides membership exactly. The one
 * exception is the quoted zone title `"(.+)"`: no quote can occur after it,
 * so its closing quote is the last quote of the line.
 *
 * Rows of floating-point numbers are not scanned here: their pattern lets an
 * arbitrary character sit inside a number (see `FloatToken`), which makes the
 * split into numbers ambiguous, and the values come from `strtod`. Loaders
 * receive them through `FloatRows`.
 */
module Grammar {
  import opened Results
  import opened Decimal
  import Simplex

  /** The POSIX `[[:space:]]` class in the C locale. */
  predicate IsSpace(c: char) {
    c == ' ' || c == '\t' || c == '\n' || c == '\U{000B}' || c == '\U{000C}' || c == '\r'
  }

  /** `[[:space:]]*`: the text after its leading spaces. */
  function Ws(s: string): (r: string)
    ensures r == "" || !IsSpace(r[0])
  {
    if |s| > 0 && IsSpace(s[0]) then Ws(s[1..]) else s
  }

  /** `[[:space:]]+`: at least one space, then all of them. */
  function Ws1(s: string): (r: Option<string>)
    ensures r.Some? <==> |s| > 0 && IsSpace(s[0])
  {
    if |s| > 0 && IsSpace(s[0]) then Some(Ws(s)) else None
  }

  /** A literal word: the text after it, if the text starts with it. */
  function Lit(s: string, w: string): (r: Option<string>)
    ensures r.Some? <==> w <= s
    ensures r.Some? ==> s == w + r.value
  {
    if w <= s then Some(s[|w|..]) else None
  }

  /** `([0-9]+)`: the (non-empty, maximal) digit run and the text after it. */
  function Digits(s: string): (r: Option<(string, string)>)
    ensures r.Some? <==> |s| > 0 && IsDigit(s[0])
    ensures r.Some? ==> |r.value.0| > 0 && AllDigits(r.value.0) && s == r.value.0 + r.value.1
    ensures r.Some? ==> r.value.1 == "" || !IsDigit(r.value.1[0])
  {
    var k := DigitRun(s);
    if k == 0 then None
    else
      assert s == s[..k] + s[k..];
      Some((s[..k], s[k..]))
  }

  /** `[[:space:]]*$`: nothing but spaces remain. */
  predicate AtEnd(s: string) {
    Ws(s) == ""
  }

  /** Position of the last `c` in `s`. */
  function LastIndexOf(s: string, c: char): (r: Option<nat>)
    ensures r.Some? ==> r.value < |s| && s[r.value] == c
    ensures r.Some? ==> forall j :: r.value < j < |s| ==> s[j] != c
    ensures r.None? ==> c !in s
  {
    if |s| == 0 then None
    else if s[|s| - 1] == c then Some(|s| - 1)
    else
      var r := LastIndexOf(s[..|s| - 1], c);
      assert forall j :: 0 <= j < |s| - 1 ==> s[..|s| - 1][j] == s[j];
      r
  }

  /**
   * `"(.+)"`: a quote, a non-empty title, the closing quote; the title and the
   * text after the closing quote, which is the last quote of the line.
   */
  function Quoted(s: string): (r: Option<(string, string)>)
    ensures r.Some? ==> |r.value.0| > 0 && '"' !in r.value.1
    ensures r.Some? ==> s == ['"'] + r.value.0 + ['"'] + r.value.1
  {
    if |s| == 0 || s[0] != '"' then None
    else
      var u := s[1..];
      match LastIndexOf(u, '"')
      case None => None
      case Some(q) =>
        if q == 0 then None
        else
          assert s == ['"'] + u[..q] + ['"'] + u[q + 1..];
          Some((u[..q], u[q + 1..]))
  }

  // ---------------------------------------------------------------------------
  // The structural line matchers
  // ---------------------------------------------------------------------------

  /** `parseTitle`: `TITLE = <anything non-empty>`. */
  predicate TitleLine(line: string) {
    match Lit(Ws(line), "TITLE")
    case None => false
    case Some(s) =>
      match Lit(Ws(s), "=")
      case None => false
      case Some(t) => t != ""
  }

  /** `parseVars`: `VARIABLES = <anything non-empty>`. */
  predicate VarsLine(line: string) {
    match Lit(Ws(line), "VARIABLES")
    case None => false
    case Some(s) =>
      match Lit(Ws(s), "=")
      case None => false
      case Some(t) => t != ""
  }

  /** `name = ` followed by a digit run: the digits and the text after them. */
  function Assignment(s: string, name: string): (r: Option<(string, string)>)
    ensures r.Some? ==> |r.value.0| > 0 && AllDigits(r.value.0)
  {
    var a :- Lit(Ws(s), name);
    var b :- Lit(Ws(a), "=");
    Digits(Ws(b))
  }

  /** `ZONE T = "<title>"`, the head both zone patterns share: the title and the text after it. */
  function ZoneTitle(line: string): (r: Option<(string, string)>)
    ensures r.Some? ==> |r.value.0| > 0 && '"' !in r.value.1
  {
    var a :- Lit(Ws(line), "ZONE");
    var b :- Ws1(a);
    var c :- Lit(b, "T");
    var d :- Lit(Ws(c), "=");
    Quoted(Ws(d))
  }

  /** `N = <n>, E = <e>` and nothing after it but spaces: the two digit runs. */
  function ZoneCounts(s: string): (r: Option<(string, string)>)
    ensures r.Some? ==> AllDigits(r.value.0) && AllDigits(r.value.1)
  {
    var n :- Assignment(s, "N");
    var m :- ElementCount(n.1);
    Some((n.0, m))
  }

  /** `, E = <e>` and nothing after it but spaces: the digit run. */
  function ElementCount(s: string): (r: Option<string>)
    ensures r.Some? ==> AllDigits(r.value)
  {
    var e :- Lit(Ws(s), ",");
    var m :- Assignment(e, "E");
    if AtEnd(m.1) then Some(m.0) else None
  }

  /**
   * `parseZone`: `ZONE T="<title>" N=<n>, E=<e>`. No comma may separate the
   * title from `N`. The counts are read with `strtoul`, into `size_t`.
   */
  function ZoneLine(line: string): (r: Option<(nat, nat)>)
    ensures r.Some? ==> r.value.0 <= ULongMax && r.value.1 <= ULongMax
  {
    var q :- ZoneTitle(line);
    var ds :- ZoneCounts(q.1);
    Some((StrToUL(ds.0), StrToUL(ds.1)))
  }

  /** `[[:space:]]*,?[[:space:]]*`: spaces with at most one comma among them. */
  function OptComma(s: string): string {
    var a := Ws(s);
    if |a| > 0 && a[0] == ',' then Ws(a[1..]) else a
  }

  /**
   * `parseFem`: `F = FEPOINT,` then at least one space, then
   * `ET = TETRAHEDRON`. The comma must follow `FEPOINT` directly.
   */
  predicate FemLine(line: string) {
    var r: Option<string> := (
      var a :- Lit(Ws(line), "F");
      var b :- Lit(Ws(a), "=");
      var c :- Lit(Ws(b), "FEPOINT,");
      var d :- Ws1(c);
      var e :- Lit(d, "ET");
      var f :- Lit(Ws(e), "=");
      Lit(Ws(f), "TETRAHEDRON"));
    r.Some? && AtEnd(r.value)
  }

  /**
   * `parseZoneAndFem`: the zone header and the element type on one line, with
   * an optional comma before `N`, `E`, `F` and `ET`; before `ET` at least one
   * space must follow that optional comma.
   */
  function ZoneAndFemLine(line: string): (r: Option<(nat, nat)>)
    ensures r.Some? ==> r.value.0 <= ULongMax && r.value.1 <= ULongMax
  {
    var q :- ZoneTitle(line);
    var n :- Assignment(OptComma(q.1), "N");
    var m :- Assignment(OptComma(n.1), "E");
    if FusedElementType(m.1) then Some((StrToUL(n.0), StrToUL(m.0))) else None
  }

  /** `,? F = FEPOINT ,? ET = TETRAHEDRON`, the tail of the fused header. */
  predicate FusedElementType(s: string) {
    var r: Option<string> := (
      var f :- Lit(OptComma(s), "F");
      var g :- Lit(Ws(f), "=");
      var h :- Lit(Ws(g), "FEPOINT");
      var i :- BeforeElementType(h);
      var j :- Lit(i, "ET");
      var k :- Lit(Ws(j), "=");
      Lit(Ws(k), "TETRAHEDRON"));
    r.Some? && AtEnd(r.value)
  }

  /** `[[:space:]]*,?[[:space:]]*[[:space:]]+`: an optional comma, and a space after it. */
  function BeforeElementType(s: string): Option<string> {
    var a := Ws(s);
    if |a| > 0 && a[0] == ',' then Ws1(a[1..])
    else if a != s then Some(a)
    else None
  }

  /** `unsigned int` from a digit run: `strtoul`, then truncation to 32 bits. */
  function ToUint(ds: string): Simplex.uint
    requires AllDigits(ds)
  {
    (StrToUL(ds) % 0x1_0000_0000) as Simplex.uint
  }

  /** `parseTet`: four digit runs separated by spaces. */
  function TetLine(line: string): (r: Option<Simplex.Connect4>) {
    var a :- Digits(Ws(line));
    var s1 :- Ws1(a.1);
    var b :- Digits(s1);
    var s2 :- Ws1(b.1);
    var c :- Digits(s2);
    var s3 :- Ws1(c.1);
    var d :- Digits(s3);
    if AtEnd(d.1) then Some(Simplex.Connect4(ToUint(a.0), ToUint(b.0), ToUint(c.0), ToUint(d.0)))
    else None
  }

  // ---------------------------------------------------------------------------
  // Texts the matchers accept, and what they read back from them
  // ---------------------------------------------------------------------------

  predicate AllSpace(s: string) {
    forall i :: 0 <= i < |s| ==> IsSpace(s[i])
  }

  /** A plain zone header as a Tecplot writer emits it: no comma after the title. */
  function ZoneText(title: string, n: nat, e: nat): string {
    "ZONE T=\"" + title + "\"" + CountsText(n, e)
  }

  function CountsText(n: nat, e: nat): string {
    " N=" + Render(n) + ", E=" + Render(e)
  }

  /** A fused zone and element-type header, with a comma before every key. */
  function FusedText(title: string, n: nat, e: nat): string {
    "ZONE T=\"" + title + "\"," + CountsText(n, e) + FusedTail()
  }

  /** `, F=FEPOINT, ET=TETRAHEDRON`. */
  function FusedTail(): string {
    "," + (" " + ("F" + ("=" + ("FEPOINT" + ("," + (" " + ("ET" + ("=" + "TETRAHEDRON"))))))))
  }

  /** A connectivity row: four decimal numbers separated by single spaces. */
  function TetText(a: nat, b: nat, c: nat, d: nat): string {
    Render(a) + " " + Render(b) + " " + Render(c) + " " + Render(d)
  }

  lemma LitPrefix(w: string, t: string)
    ensures Lit(w + t, w) == Some(t)
  {
    assert w <= w + t;
    assert (w + t)[|w|..] == t;
  }

  lemma {:induction false} WsSkip(sp: string, t: string)
    requires AllSpace(sp)
    requires t == "" || !IsSpace(t[0])
    ensures Ws(sp + t) == t
    decreases |sp|
  {
    if |sp| == 0 {
      assert sp + t == t;
    } else {
      assert (sp + t)[1..] == sp[1..] + t;
      WsSkip(sp[1..], t);
    }
  }

  lemma DigitsOf(ds: string, t: string)
    requires |ds| > 0 && AllDigits(ds)
    requires t == "" || !IsDigit(t[0])
    ensures Digits(ds + t) == Some((ds, t))
  {
    DigitRunConcat(ds, t);
    assert (ds + t)[..|ds|] == ds;
    assert (ds + t)[|ds|..] == t;
  }

  lemma QuotedOf(title: string, rest: string)
    requires |title| > 0 && '"' !in rest
    ensures Quoted(['"'] + title + ['"'] + rest) == Some((title, rest))
  {
    var s := ['"'] + title + ['"'] + rest;
    var u := s[1..];
    assert u == title + ['"'] + rest;
    LastQuote(title, rest);
    assert u[..|title|] == title;
    assert u[|title| + 1..] == rest;
  }

  lemma LastQuote(title: string, rest: string)
    requires '"' !in rest
    ensures LastIndexOf(title + ['"'] + rest, '"') == Some(|title|)
  {
    var u := title + ['"'] + rest;
    var r := LastIndexOf(u, '"');
    assert u[|title|] == '"';
    assert r.Some?;
    QuoteFreeAfter(title, rest);
  }

  lemma QuoteFreeAfter(title: string, rest: string)
    requires '"' !in rest
    ensures forall j :: |title| < j < |title| + 1 + |rest| ==> (title + ['"'] + rest)[j] != '"'
  {
    var u := title + ['"'] + rest;
    forall j | |title| < j < |u|
      ensures u[j] != '"'
    {
      assert u[j] == rest[j - |title| - 1];
    }
  }

  /** Skipping spaces leaves a suffix of the text. */
  lemma {:induction false} WsSuffix(s: string)
    ensures |Ws(s)| <= |s| && Ws(s) == s[|s| - |Ws(s)|..]
    ensures AllSpace(s[..|s| - |Ws(s)|])
    decreases |s|
  {
    if |s| > 0 && IsSpace(s[0]) {
      WsSuffix(s[1..]);
      assert s[..|s| - |Ws(s)|] == [s[0]] + s[1..][..|s[1..]| - |Ws(s[1..])|];
    }
  }

  lemma WsNone(s: string)
    requires s == "" || !IsSpace(s[0])
    ensures Ws(s) == s
  {
  }

  lemma RenderNoQuote(n: nat)
    ensures '"' !in Render(n)
    ensures forall i :: 0 <= i < |Render(n)| ==> !IsSpace(Render(n)[i])
  {
    var r := Render(n);
    forall i | 0 <= i < |r|
      ensures r[i] != '"' && !IsSpace(r[i])
    {
      assert IsDigit(r[i]);
    }
  }

  /** `digits` followed by text not starting with a digit reads back as the rendered number. */
  lemma StrToULRender(n: nat)
    requires n <= ULongMax
    ensures StrToUL(Render(n)) == n
  {
    ValueRender(n);
  }

  /** `N = <digits>` after optional spaces, as `Assignment` reads it. */
  lemma AssignmentOf(name: string, ds: string, t: string)
    requires |name| > 0 && !IsSpace(name[0])
    requires |ds| > 0 && AllDigits(ds)
    requires t == "" || !IsDigit(t[0])
    ensures Assignment(name + ("=" + (ds + t)), name) == Some((ds, t))
  {
    var b := ds + t;
    var a := "=" + b;
    var s := name + a;
    WsNone(s);
    LitPrefix(name, a);
    WsNone(a);
    LitPrefix("=", b);
    assert IsDigit(b[0]);
    WsNone(b);
    DigitsOf(ds, t);
  }

  /** The text after a quoted title holds no quote when it is built from words and numbers. */
  lemma NoQuoteConcat(x: string, y: string)
    requires '"' !in x && '"' !in y
    ensures '"' !in x + y
  {
  }

  /** The head of a zone header gives back its title and the text after the title. */
  lemma ZoneTitleOf(title: string, rest: string)
    requires |title| > 0 && '"' !in rest
    ensures ZoneTitle("ZONE T=\"" + title + "\"" + rest) == Some((title, rest))
  {
    var quoted := ['"'] + title + ['"'] + rest;
    var c := "=" + quoted;
    var b := "T" + c;
    var a := " " + b;
    var line := "ZONE" + a;
    var head := "ZONE T=\"";
    assert head == "ZONE" + " " + "T" + "=" + ['"'];
    assert head + title + "\"" + rest == line;
    WsNone(line);
    LitPrefix("ZONE", a);
    assert Ws1(a) == Some(b) by {
      WsSkip(" ", b);
    }
    LitPrefix("T", c);
    WsNone(c);
    LitPrefix("=", quoted);
    WsNone(quoted);
    QuotedOf(title, rest);
  }

  /** The counts of a plain zone header read back as the digit runs that render them. */
  lemma ZoneCountsOf(n: nat, e: nat)
    ensures ZoneCounts(CountsText(n, e)) == Some((Render(n), Render(e)))
  {
    CountsOf(Render(n), Render(e));
  }

  lemma CountsOf(dn: string, de: string)
    requires |dn| > 0 && AllDigits(dn) && |de| > 0 && AllDigits(de)
    ensures ZoneCounts(" N=" + dn + ", E=" + de) == Some((dn, de))
  {
    var eText := ", E=" + de;
    var nAssign := "N" + ("=" + (dn + eText));
    assert " N=" == " " + "N" + "=";
    assert " N=" + dn + ", E=" + de == " " + nAssign;
    assert Ws(" " + nAssign) == nAssign by {
      WsSkip(" ", nAssign);
    }
    AssignmentOf("N", dn, eText);
    ElementCountOf(de);
  }

  lemma ElementCountOf(de: string)
    requires |de| > 0 && AllDigits(de)
    ensures ElementCount(", E=" + de) == Some(de)
  {
    var eAssign := "E" + ("=" + (de + ""));
    var eText := "," + (" " + eAssign);
    assert ", E=" == "," + " " + "E" + "=";
    assert ", E=" + de == eText;
    WsNone(eText);
    LitPrefix(",", " " + eAssign);
    assert Ws(" " + eAssign) == eAssign by {
      WsSkip(" ", eAssign);
    }
    AssignmentOf("E", de, "");
    assert AtEnd("");
  }

  lemma FusedTailNoQuote()
    ensures '"' !in FusedTail()
  {
  }

  lemma CountsTextNoQuote(n: nat, e: nat)
    ensures '"' !in CountsText(n, e)
  {
    RenderNoQuote(n);
    RenderNoQuote(e);
    NoQuoteConcat(" N=", Render(n));
    NoQuoteConcat(" N=" + Render(n), ", E=");
    NoQuoteConcat(" N=" + Render(n) + ", E=", Render(e));
  }

  /** A plain zone header gives back its vertex and element counts. */
  lemma ZoneRoundTrip(title: string, n: nat, e: nat)
    requires |title| > 0 && n <= ULongMax && e <= ULongMax
    ensures ZoneLine(ZoneText(title, n, e)) == Some((n, e))
  {
    ZoneCountsOf(n, e);
    CountsTextNoQuote(n, e);
    ZoneTitleOf(title, CountsText(n, e));
    StrToULRender(n);
    StrToULRender(e);
  }

  /** A line that opens with a zone title is no title, variables, element-type or connectivity line. */
  lemma ZoneIsNothingElse(line: string)
    requires ZoneTitle(line).Some?
    ensures !TitleLine(line) && !VarsLine(line) && !FemLine(line) && TetLine(line).None?
  {
    var w := Ws(line);
    assert w[0] == 'Z' by {
      assert "ZONE" <= w;
    }
  }

  /** The plain pattern rejects a comma between the title and `N`, as the fused header has. */
  lemma ZoneLineRejectsFused(title: string, n: nat, e: nat)
    requires |title| > 0
    ensures ZoneLine(FusedText(title, n, e)) == None
  {
    var rest := "," + CountsText(n, e) + FusedTail();
    assert FusedText(title, n, e) == "ZONE T=\"" + title + "\"" + rest;
    FusedRestNoQuote(n, e);
    ZoneTitleOf(title, rest);
    WsNone(rest);
    assert !("N" <= rest) by {
      assert rest[0] == ',';
    }
  }

  /** The fused header gives back its counts, commas and all. */
  lemma FusedRoundTrip(title: string, n: nat, e: nat)
    requires |title| > 0 && n <= ULongMax && e <= ULongMax
    ensures ZoneAndFemLine(FusedText(title, n, e)) == Some((n, e))
  {
    var fem := FusedTail();
    var eText := ", E=" + Render(e) + fem;
    var rest := "," + CountsText(n, e) + fem;
    assert FusedText(title, n, e) == "ZONE T=\"" + title + "\"" + rest;
    assert rest == "," + (" N=" + Render(n) + eText);
    FusedRestNoQuote(n, e);
    ZoneTitleOf(title, rest);
    FusedCountsOf(Render(n), eText);
    FusedElementOf(Render(e), fem);
    FusedFemOf();
    StrToULRender(n);
    StrToULRender(e);
  }

  /** What follows the title of a fused header holds no quote. */
  lemma FusedRestNoQuote(n: nat, e: nat)
    ensures '"' !in "," + CountsText(n, e) + FusedTail()
  {
    CountsTextNoQuote(n, e);
    NoQuoteConcat(",", CountsText(n, e));
    FusedTailNoQuote();
    NoQuoteConcat("," + CountsText(n, e), FusedTail());
  }

  /** A comma and a space before a word are what the optional-comma pattern skips. */
  lemma OptCommaSkip(x: string)
    requires |x| > 0 && !IsSpace(x[0])
    ensures OptComma("," + (" " + x)) == x
  {
    var s := "," + (" " + x);
    WsNone(s);
    assert s[1..] == " " + x;
    WsSkip(" ", x);
  }

  lemma FusedCountsOf(dn: string, t: string)
    requires |dn| > 0 && AllDigits(dn)
    requires t == "" || !IsDigit(t[0])
    ensures Assignment(OptComma("," + (" N=" + dn + t)), "N") == Some((dn, t))
  {
    var nAssign := "N" + ("=" + (dn + t));
    assert " N=" == " " + "N" + "=";
    assert "," + (" N=" + dn + t) == "," + (" " + nAssign);
    OptCommaSkip(nAssign);
    AssignmentOf("N", dn, t);
  }

  lemma FusedElementOf(de: string, t: string)
    requires |de| > 0 && AllDigits(de)
    requires t == "" || !IsDigit(t[0])
    ensures Assignment(OptComma(", E=" + de + t), "E") == Some((de, t))
  {
    var eAssign := "E" + ("=" + (de + t));
    assert ", E=" == "," + " " + "E" + "=";
    assert ", E=" + de + t == "," + (" " + eAssign);
    OptCommaSkip(eAssign);
    AssignmentOf("E", de, t);
  }

  /** One matching step on a text that starts with the word: the text after it. */
  lemma Step(s: string, w: string, t: string)
    requires s == w + t && |w| > 0 && !IsSpace(w[0])
    ensures Lit(Ws(s), w) == Some(t)
  {
    WsNone(s);
    LitPrefix(w, t);
  }

  /** The element-type tail `, F=FEPOINT, ET=TETRAHEDRON` of the fused header. */
  lemma FusedFemOf()
    ensures FusedElementType(FusedTail())
  {
    var et := "ET" + ("=" + "TETRAHEDRON");
    var fem := "F" + ("=" + ("FEPOINT" + ("," + (" " + et))));
    assert FusedTail() == "," + (" " + fem);
    assert OptComma(FusedTail()) == fem by {
      WsNone(FusedTail());
      WsSkip(" ", fem);
    }
    Step(fem, "F", "=" + ("FEPOINT" + ("," + (" " + et))));
    Step("=" + ("FEPOINT" + ("," + (" " + et))), "=", "FEPOINT" + ("," + (" " + et)));
    Step("FEPOINT" + ("," + (" " + et)), "FEPOINT", "," + (" " + et));
    assert BeforeElementType("," + (" " + et)) == Some(et) by {
      WsNone("," + (" " + et));
      WsSkip(" ", et);
    }
    LitPrefix("ET", "=" + "TETRAHEDRON");
    ElementTypeTail();
  }

  /** `= TETRAHEDRON` at the end of a line. */
  lemma ElementTypeTail()
    ensures Lit(Ws("=" + "TETRAHEDRON"), "=") == Some("TETRAHEDRON")
    ensures Lit(Ws("TETRAHEDRON"), "TETRAHEDRON") == Some("")
    ensures AtEnd("")
  {
    Step("=" + "TETRAHEDRON", "=", "TETRAHEDRON");
    Step("TETRAHEDRON", "TETRAHEDRON", "");
  }

  /** `F=FEPOINT,<sp>ET=TETRAHEDRON`: the element-type line with the given spacing after its comma. */
  function FemText(sp: string): string {
    "F" + ("=" + ("FEPOINT," + (sp + ("ET" + ("=" + "TETRAHEDRON")))))
  }

  /** The element-type line needs at least one space after the comma, and any run of them will do. */
  lemma FemLineSpacing(sp: string)
    requires AllSpace(sp)
    ensures FemLine(FemText(sp)) <==> sp != ""
  {
    var et := "ET" + ("=" + "TETRAHEDRON");
    Step(FemText(sp), "F", "=" + ("FEPOINT," + (sp + et)));
    Step("=" + ("FEPOINT," + (sp + et)), "=", "FEPOINT," + (sp + et));
    Step("FEPOINT," + (sp + et), "FEPOINT,", sp + et);
    if sp != "" {
      WsSkip(sp, et);
      LitPrefix("ET", "=" + "TETRAHEDRON");
      ElementTypeTail();
    } else {
      assert sp + et == et;
    }
  }

  /** Without the comma directly after `FEPOINT` the element-type line is rejected, whatever the spacing. */
  lemma FemLineNeedsComma(sp: string)
    requires AllSpace(sp)
    ensures !FemLine("F" + ("=" + ("FEPOINT" + (sp + ("ET" + ("=" + "TETRAHEDRON"))))))
  {
    var rest := sp + ("ET" + ("=" + "TETRAHEDRON"));
    Step("F" + ("=" + ("FEPOINT" + rest)), "F", "=" + ("FEPOINT" + rest));
    Step("=" + ("FEPOINT" + rest), "=", "FEPOINT" + rest);
    WsNone("FEPOINT" + rest);
    assert ("FEPOINT" + rest)[7] == rest[0];
    assert rest[0] != ',';
  }

  /**
   * A connectivity row gives back its four indices, each read with `strtoul`
   * and cut to 32 bits.
   */
  lemma TetRoundTrip(a: nat, b: nat, c: nat, d: nat)
    requires a <= ULongMax && b <= ULongMax && c <= ULongMax && d <= ULongMax
    ensures TetLine(TetText(a, b, c, d)) == Some(Simplex.Connect4(
      (a % 0x1_0000_0000) as Simplex.uint, (b % 0x1_0000_0000) as Simplex.uint,
      (c % 0x1_0000_0000) as Simplex.uint, (d % 0x1_0000_0000) as Simplex.uint))
  {
    var t3 := " " + Render(d);
    var t2 := " " + (Render(c) + t3);
    var t1 := " " + (Render(b) + t2);
    var line := Render(a) + t1;
    assert TetText(a, b, c, d) == line;
    assert Digits(Ws(line)) == Some((Render(a), t1)) by {
      RenderNoQuote(a);
      WsNone(line);
      DigitsOf(Render(a), t1);
    }
    TetStepOf(b, t2);
    TetStepOf(c, t3);
    TetStepOf(d, "");
    assert Render(d) + "" == Render(d);
    assert AtEnd("");
    ToUintRender(a);
    ToUintRender(b);
    ToUintRender(c);
    ToUintRender(d);
  }

  lemma ToUintRender(n: nat)
    requires n <= ULongMax
    ensures ToUint(Render(n)) == (n % 0x1_0000_0000) as Simplex.uint
  {
    StrToULRender(n);
  }

  /** One `[[:space:]]+([0-9]+)` step of the connectivity row. */
  lemma TetStepOf(n: nat, t: string)
    requires t == "" || !IsDigit(t[0])
    ensures Ws1(" " + (Render(n) + t)) == Some(Render(n) + t)
    ensures Digits(Render(n) + t) == Some((Render(n), t))
  {
    RenderNoQuote(n);
    assert !IsSpace((Render(n) + t)[0]);
    WsSkip(" ", Render(n) + t);
    DigitsOf(Render(n), t);
  }

  /** Index 2^32 in a file is read as 0, since `extract_uint` narrows `strtoul`'s result. */
  lemma TetIndexWraps()
    ensures TetLine(TetText(0x1_0000_0000, 1, 2, 3)) == Some(Simplex.Connect4(0, 1, 2, 3))
  {
    TetRoundTrip(0x1_0000_0000, 1, 2, 3);
  }

  // ---------------------------------------------------------------------------
  // Rows of floating-point numbers
  // ---------------------------------------------------------------------------

  /** A three-component vector of opaque floating-point values. */
  datatype Vec3<F> = Vec3(x: F, y: F, z: F)

  /**
   * `parseVertAndField` and `parseF`: a row of six numbers (a vertex and its
   * field vector) and a row of three (a field vector), each `None` when the
   * line does not match. The values are whatever `strtod` makes of the
   * captured text, so both matchers are parameters of the loaders.
   */
  datatype FloatRows<F> = FloatRows(six: string -> Option<(Vec3<F>, Vec3<F>)>, three: string -> Option<Vec3<F>>)

  /**
   * The number pattern `[-+]?[0-9]*.?[0-9]+([eE][-+]?[0-9]+)?`. Its `.` is
   * unescaped, so any single character may sit between the two digit runs.
   */
  ghost predicate FloatToken(t: string) {
    exists sign: string, whole: string, mid: string, frac: string, ex: string ::
      t == sign + whole + mid + frac + ex &&
      (sign == "" || sign == "-" || sign == "+") &&
      AllDigits(whole) && |mid| <= 1 && |frac| > 0 && AllDigits(frac) &&
      ExponentPart(ex)
  }

  ghost predicate ExponentPart(ex: string) {
    ex == "" ||
    exists mark: string, sign: string, ds: string ::
      ex == mark + sign + ds && (mark == "e" || mark == "E") &&
      (sign == "" || sign == "-" || sign == "+") && |ds| > 0 && AllDigits(ds)
  }

  /**
   * `n` numbers separated by space runs, as the row patterns chain them.
   */
  ghost predicate RowOf(s: string, n: nat)
    decreases n
  {
    if n <= 1 then n == 1 && FloatToken(s)
    else exists t: string, sp: string, rest: string ::
      s == t + sp + rest && FloatToken(t) && sp != "" && AllSpace(sp) && RowOf(rest, n - 1)
  }

  /** The whole-line row pattern: optional spaces, `n` numbers, optional spaces. */
  ghost predicate FloatRowLine(line: string, n: nat) {
    exists lead: string, body: string, trail: string ::
      line == lead + body + trail && AllSpace(lead) && AllSpace(trail) && RowOf(body, n)
  }

  /**
   * What `FloatRows` promises when its matchers follow the two row patterns:
   * a line is a vertex-and-field row exactly when it is six numbers, and a
   * field row exactly when it is three.
   */
  ghost predicate FollowsPatterns<F>(rows: FloatRows<F>) {
    (forall line :: rows.six(line).Some? <==> FloatRowLine(line, 6)) &&
    (forall line :: rows.three(line).Some? <==> FloatRowLine(line, 3))
  }

  /**
   * A number starts with a digit or a sign, or else with one arbitrary
   * character (the unescaped `.`) followed by a digit.
   */
  predicate NumberStart(s: string) {
    |s| >= 1 && (IsDigit(s[0]) || s[0] == '-' || s[0] == '+' || (|s| >= 2 && IsDigit(s[1])))
  }

  lemma TokenStart(t: string)
    requires FloatToken(t)
    ensures NumberStart(t)
  {
    var sign, whole, mid, frac, ex :| t == sign + whole + mid + frac + ex &&
      (sign == "" || sign == "-" || sign == "+") &&
      AllDigits(whole) && |mid| <= 1 && |frac| > 0 && AllDigits(frac) && ExponentPart(ex);
    if sign != "" {
      assert t[0] == sign[0];
    } else if whole != "" {
      assert t[0] == whole[0];
    } else if mid == "" {
      assert t[0] == frac[0];
    } else {
      assert t[1] == frac[0];
    }
  }

  /** A row of numbers starts as its first number does. */
  lemma RowStarts(s: string, n: nat)
    ensures RowOf(s, n) ==> NumberStart(s)
  {
    if RowOf(s, n) {
      if n <= 1 {
        TokenStart(s);
      } else {
        var t, sp, rest :| s == t + sp + rest && FloatToken(t) && sp != "" && AllSpace(sp) && RowOf(rest, n - 1);
        TokenStart(t);
        assert s[..|t|] == t;
      }
    }
  }

  /** A zone header line is spaces, then the word `ZONE`. */
  lemma ZoneStart(line: string) returns (m: nat)
    requires ZoneLine(line).Some?
    ensures m + 4 <= |line| && AllSpace(line[..m]) && line[m] == 'Z' && line[m + 1] == 'O'
  {
    WsSuffix(line);
    m := |line| - |Ws(line)|;
    assert "ZONE" <= Ws(line);
  }

  /** No row pattern matches a zone header: its first non-space characters are letters. */
  lemma ZoneLineNotRow(line: string, n: nat)
    requires ZoneLine(line).Some?
    ensures !FloatRowLine(line, n)
  {
    var m := ZoneStart(line);
    WordAfterSpacesNotRow(line, m, n);
  }

  /** A line whose first non-space characters are `ZO` is no row of numbers. */
  lemma WordAfterSpacesNotRow(line: string, m: nat, n: nat)
    requires m + 2 <= |line| && AllSpace(line[..m]) && line[m] == 'Z' && line[m + 1] == 'O'
    ensures !FloatRowLine(line, n)
  {
    forall lead, body, trail | line == lead + body + trail && AllSpace(lead) && AllSpace(trail)
      ensures !RowOf(body, n)
    {
      BodyAfterSpacesNotRow(line, m, n, lead, body, trail);
    }
  }

  /** One split of such a line: its middle part is no row of numbers. */
  lemma BodyAfterSpacesNotRow(line: string, m: nat, n: nat, lead: string, body: string, trail: string)
    requires m + 2 <= |line| && AllSpace(line[..m]) && line[m] == 'Z' && line[m + 1] == 'O'
    requires line == lead + body + trail && AllSpace(lead)
    ensures !RowOf(body, n)
  {
    assert line == lead + (body + trail);
    NoNumberAfterSpaces(line, m, lead, body + trail);
    assert !NumberStart(body) by {
      assert |body| >= 1 ==> body[0] == (body + trail)[0];
      assert |body| >= 2 ==> body[1] == (body + trail)[1];
    }
    RowStarts(body, n);
  }

  /** After any run of the leading spaces, the text does not start like a number. */
  lemma NoNumberAfterSpaces(line: string, m: nat, lead: string, rest: string)
    requires m + 2 <= |line| && AllSpace(line[..m]) && line[m] == 'Z' && line[m + 1] == 'O'
    requires line == lead + rest && AllSpace(lead)
    ensures |rest| >= 2 && !IsDigit(rest[0]) && rest[0] != '-' && rest[0] != '+' && !IsDigit(rest[1])
  {
    assert forall i :: 0 <= i < |lead| ==> IsSpace(line[i]) by {
      forall i | 0 <= i < |lead|
        ensures IsSpace(line[i])
      {
        assert line[i] == lead[i];
      }
    }
    assert !IsSpace(line[m]);
    var k := |lead|;
    assert rest[0] == line[k] && rest[1] == line[k + 1];
    assert k < m ==> line[k] == line[..m][k];
    assert k + 1 < m ==> line[k + 1] == line[..m][k + 1];
  }

  lemma DigitToken(d: string)
    requires |d| > 0 && AllDigits(d)
    ensures FloatToken(d)
  {
    assert d == "" + "" + "" + d + "";
  }

  lemma RowCons(t: string, rest: string, n: nat)
    requires FloatToken(t) && RowOf(rest, n) && n >= 1
    ensures RowOf(t + (" " + rest), n + 1)
  {
    assert t + (" " + rest) == t + " " + rest;
  }

  /** Digit runs joined by single spaces. */
  function SpacedNumbers(ds: seq<string>): string
    decreases |ds|
  {
    if |ds| <= 1 then (if ds == [] then "" else ds[0])
    else ds[0] + (" " + SpacedNumbers(ds[1..]))
  }

  predicate DigitRuns(ds: seq<string>) {
    forall i :: 0 <= i < |ds| ==> |ds[i]| > 0 && AllDigits(ds[i])
  }

  /** Digit runs joined by single spaces form a row of that many numbers. */
  lemma {:induction false} SpacedNumbersRow(ds: seq<string>)
    requires |ds| >= 1 && DigitRuns(ds)
    ensures RowOf(SpacedNumbers(ds), |ds|)
    decreases |ds|
  {
    if |ds| == 1 {
      DigitToken(ds[0]);
      assert SpacedNumbers(ds) == ds[0];
    } else {
      var rest := ds[1..];
      DigitRunsTail(ds);
      SpacedNumbersRow(rest);
      RowStep(ds);
    }
  }

  lemma DigitRunsTail(ds: seq<string>)
    requires |ds| >= 1 && DigitRuns(ds)
    ensures DigitRuns(ds[1..])
  {
    forall i | 0 <= i < |ds| - 1
      ensures |ds[1..][i]| > 0 && AllDigits(ds[1..][i])
    {
      assert ds[1..][i] == ds[i + 1];
    }
  }

  /** One more leading number: the row grows by one. */
  lemma RowStep(ds: seq<string>)
    requires |ds| >= 2 && |ds[0]| > 0 && AllDigits(ds[0])
    requires RowOf(SpacedNumbers(ds[1..]), |ds| - 1)
    ensures RowOf(SpacedNumbers(ds), |ds|)
  {
    var m := |ds| - 1;
    var tail := SpacedNumbers(ds[1..]);
    DigitToken(ds[0]);
    SpacedNumbersCons(ds);
    RowCons(ds[0], tail, m);
    assert SpacedNumbers(ds) == ds[0] + (" " + tail);
    assert m + 1 == |ds|;
  }

  /**
   * Because a space may sit inside a number, a line of seven numbers matches
   * the six-number row pattern: its first two numbers are read as one.
   */
  lemma SevenNumbersFitSixRow(ds: seq<string>)
    requires |ds| == 7 && DigitRuns(ds)
    ensures FloatRowLine(SpacedNumbers(ds), 6)
  {
    var rest := ds[2..];
    SpacedNumbersRow(rest);
    SpacedNumbersCons(ds);
    SpacedNumbersCons(ds[1..]);
    assert ds[1..][1..] == rest && ds[1..][0] == ds[1];
    MergedPair(ds[0], ds[1], SpacedNumbers(rest), 5);
    WholeLine(SpacedNumbers(ds), 6);
  }

  lemma SpacedNumbersCons(ds: seq<string>)
    requires |ds| >= 2
    ensures SpacedNumbers(ds) == ds[0] + (" " + SpacedNumbers(ds[1..]))
  {
  }

  /** A row with no surrounding spaces is a row line. */
  lemma WholeLine(body: string, n: nat)
    requires RowOf(body, n)
    ensures FloatRowLine(body, n)
  {
    assert body == "" + body + "";
  }

  /** Two digit runs and the space between them read as one number at the head of a row. */
  lemma MergedPair(a: string, b: string, rest: string, n: nat)
    requires |a| > 0 && AllDigits(a) && |b| > 0 && AllDigits(b)
    requires RowOf(rest, n) && n >= 1
    ensures RowOf(a + (" " + (b + (" " + rest))), n + 1)
  {
    var t := a + " " + b;
    SpacedPairToken(a, b);
    RowCons(t, rest, n);
    Regroup(a, " ", b, " " + rest);
  }

  lemma Regroup(a: string, b: string, c: string, d: string)
    ensures a + (b + (c + d)) == a + b + c + d
  {
  }

  lemma SpacedPairToken(a: string, b: string)
    requires |a| > 0 && AllDigits(a) && |b| > 0 && AllDigits(b)
    ensures FloatToken(a + " " + b)
  {
    assert ExponentPart("");
    assert a + " " + b == "" + a + " " + b + "";
  }

  /** Two digit runs with a space between them read as one number, and so does `1x5`. */
  lemma FloatTokenAdmitsAnyMiddle()
    ensures FloatToken("1 5")
    ensures FloatToken("1x5")
    ensures FloatToken("-2.5e10")
  {
    assert "1 5" == "" + "1" + " " + "5" + "";
    assert "1x5" == "" + "1" + "x" + "5" + "";
    assert ExponentPart("e10") by {
      assert "e10" == "e" + "" + "10";
    }
    assert "-2.5e10" == "-" + "2" + "." + "5" + "e10";
  }

  /** A number must end in a digit run (before any exponent): a lone sign or letter is not one. */
  lemma FloatTokenNeedsDigits(t: string)
    requires FloatToken(t)
    ensures exists i :: 0 <= i < |t| && IsDigit(t[i])
  {
    var sign: string, whole: string, mid: string, frac: string, ex: string :|
      t == sign + whole + mid + frac + ex &&
      (sign == "" || sign == "-" || sign == "+") &&
      AllDigits(whole) && |mid| <= 1 && |frac| > 0 && AllDigits(frac) &&
      ExponentPart(ex);
    var i := |sign| + |whole| + |mid|;
    assert t[i] == frac[0];
  }
}
