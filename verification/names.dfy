/**
 * Start/end marker files and the file names they point at, from
 * src/DirectoryDatabase.h: `StartEndPair`, `FieldDataHasher` and the file-name
 * patterns of src/DirectoryDatabase.cpp.
 *
 * A marker is called `START_END` or `START_END_<NNNN>`; it names a start and an
 * end magnetisation file `<size>nm_<temp>C_mag_<NNNN>.dat` (or `..._mult.tec`).
 * The regular expressions are searched for anywhere in the text
 * (`QString::contains`), so a search tries each position from the left; each
 * pattern here has at most one way to match at a given position, because
 * every digit run in it is followed by a non-digit.
 */
module Names {
  import opened Results
  import opened Decimal
  import opened Grammar
  import opened Utilities
  import Simplex

  type uint = Simplex.uint

  // ---------------------------------------------------------------------------
  // Searching for a pattern
  // ---------------------------------------------------------------------------

  /** The first position at or after `k` where `at` matches the rest of the text. */
  function SearchFrom<T>(s: string, at: string -> Option<T>, k: nat): (r: Option<nat>)
    requires k <= |s|
    ensures r.Some? ==> k <= r.value <= |s| && at(s[r.value..]).Some?
    ensures r.Some? ==> forall j :: k <= j < r.value ==> at(s[j..]).None?
    ensures r.None? ==> forall j :: k <= j <= |s| ==> at(s[j..]).None?
    decreases |s| - k
  {
    if at(s[k..]).Some? then Some(k)
    else if k == |s| then None
    else SearchFrom(s, at, k + 1)
  }

  /** `contains` with a capturing pattern: the captures of the leftmost match. */
  function Search<T>(s: string, at: string -> Option<T>): (r: Option<T>)
    ensures r.None? <==> forall j :: 0 <= j <= |s| ==> at(s[j..]).None?
    ensures r.Some? ==> exists j :: 0 <= j <= |s| && at(s[j..]) == r && forall i :: 0 <= i < j ==> at(s[i..]).None?
  {
    match SearchFrom(s, at, 0)
    case None => None
    case Some(i) => at(s[i..])
  }

  /** A pattern that matches at the very start is found there. */
  lemma SearchAtStart<T>(s: string, at: string -> Option<T>)
    requires at(s).Some?
    ensures Search(s, at) == at(s)
  {
    assert s[0..] == s;
  }

  /** A pattern whose every match holds the character `c` is not found in a text without `c`. */
  lemma SearchWithout<T>(s: string, at: string -> Option<T>, c: char)
    requires forall x :: at(x).Some? ==> c in x
    requires c !in s
    ensures Search(s, at).None?
  {
    forall j | 0 <= j <= |s|
      ensures at(s[j..]).None?
    {
      assert c !in s[j..];
    }
  }

  // ---------------------------------------------------------------------------
  // The file-name patterns
  // ---------------------------------------------------------------------------

  /** The three captures every file-name pattern has: size, temperature and index. */
  datatype Captures = Captures(size: string, temp: string, index: string)

  /** `([0-9]{4})`: exactly four digits, and the text after them. */
  function Four(s: string): (r: Option<(string, string)>)
    ensures r.Some? ==> |r.value.0| == 4 && AllDigits(r.value.0) && s == r.value.0 + r.value.1
  {
    if |s| >= 4 && AllDigits(s[..4]) then
      assert s == s[..4] + s[4..];
      Some((s[..4], s[4..]))
    else None
  }

  /** `([0-9]+)nm_([0-9]+)<mid>([0-9]{4})`, shared by all three patterns. */
  function SizeTempIndex(s: string, mid: string): (r: Option<(Captures, string)>)
    ensures r.Some? ==> AllDigits(r.value.0.size) && AllDigits(r.value.0.temp) && AllDigits(r.value.0.index)
    ensures r.Some? ==> |r.value.0.index| == 4
    ensures r.Some? ==>
      var c := r.value.0;
      s == c.size + ("nm_" + (c.temp + (mid + (c.index + r.value.1))))
  {
    var a :- Digits(s);
    var b :- Lit(a.1, "nm_");
    var c :- Digits(b);
    var d :- Lit(c.1, mid);
    var e :- Four(d);
    Some((Captures(a.0, c.0, e.0), e.1))
  }

  /** `([0-9]+)nm_([0-9]+)C_mag_([0-9]{4})\.dat`, the start/end data file. */
  function DatAt(s: string): (r: Option<Captures>) {
    var m :- SizeTempIndex(s, "C_mag_");
    if ".dat" <= m.1 then Some(m.0) else None
  }

  /** `([0-9]+)nm_([0-9]+)C_mag_([0-9]{4})_mult\.tec`, the Tecplot field file. */
  function TecAt(s: string): (r: Option<Captures>) {
    var m :- SizeTempIndex(s, "C_mag_");
    if "_mult.tec" <= m.1 then Some(m.0) else None
  }

  /** `stdout_lcl_([0-9]+)nm_([0-9]+)C_([0-9]{4})`, the micromagnetics run log. */
  function StdoutAt(s: string): (r: Option<Captures>) {
    var a :- Lit(s, "stdout_lcl_");
    var m :- SizeTempIndex(a, "C_");
    Some(m.0)
  }

  /** Every capture is a digit run, and the index has four digits. */
  predicate Digital(c: Captures) {
    AllDigits(c.size) && AllDigits(c.temp) && AllDigits(c.index) && |c.index| == 4
  }

  // ---------------------------------------------------------------------------
  // File names of the start and end magnetisations
  // ---------------------------------------------------------------------------

  /** Size, temperature and index of a start or end file, as the pair stores them. */
  datatype FileData = FileData(size: uint, temp: uint, index: uint)

  /** `%1nm_%2C_mag_%3` and an extension: size and temperature in decimal, the index padded to four digits. */
  function FileName(d: FileData, ext: string): string {
    Render(d.size as nat) + ("nm_" + (Render(d.temp as nat) + ("C_mag_" + (Pad4(d.index as nat) + ext))))
  }

  /** `startAsDatFile` / `endAsDatFile` without the directory. */
  function DatName(d: FileData): string {
    FileName(d, ".dat")
  }

  /** `startAsTecFile` / `endAsTecFile` without the directory. */
  function TecName(d: FileData): string {
    FileName(d, "_mult.tec")
  }

  /** The `absPath` flag: with it, the marker's directory and a separator go in front of the name. */
  function WithDir(absPath: bool, absLoc: string, name: string): (r: string)
    ensures |name| <= |r| && r[|r| - |name|..] == name
    ensures absPath ==> |absLoc| + 1 <= |r| && r[..|absLoc| + 1] == absLoc + "/"
    ensures absPath ==> r == absLoc + "/" + name
    ensures !absPath ==> r == name
  {
    if absPath then absLoc + "/" + name else name
  }

  /** The captures read with `QString::toInt`, stored as `unsigned int`. */
  function ToData(c: Captures): (d: FileData)
    requires Digital(c)
    ensures d.index as nat == Value(c.index) && d.index <= 9999
  {
    ValueAtMost4(c.index);
    FileData(ToInt(c.size) as uint, ToInt(c.temp) as uint, ToInt(c.index) as uint)
  }

  lemma ValueAtMost4(s: string)
    requires |s| == 4 && AllDigits(s)
    ensures Value(s) <= 9999
  {
    ZerosThenRender(s);
    RenderLength(Value(s));
  }

  /** The leftmost capture of a file-name pattern, if any. */
  function Find(s: string, at: string -> Option<Captures>): (r: Option<Captures>)
    requires forall x :: at(x).Some? ==> Digital(at(x).value)
    ensures r.Some? ==> Digital(r.value)
    ensures r == Search(s, at)
  {
    Search(s, at)
  }

  /**
   * One half of `updateStartEndPair`: the name read as a data file, failing
   * that as a field file, failing that nothing.
   */
  function Extract(file: string): (r: Option<FileData>)
    ensures r.None? <==> Search(file, DatAt).None? && Search(file, TecAt).None?
    ensures r.Some? ==> r.value.size as nat <= IntMax && r.value.temp as nat <= IntMax && r.value.index <= 9999
    ensures Search(file, DatAt).Some? ==>
      Digital(Search(file, DatAt).value) && r == Some(ToData(Search(file, DatAt).value))
    ensures Search(file, DatAt).None? && Search(file, TecAt).Some? ==>
      Digital(Search(file, TecAt).value) && r == Some(ToData(Search(file, TecAt).value))
  {
    DatDigital();
    TecDigital();
    match Find(file, DatAt)
    case Some(c) => Some(ToData(c))
    case None =>
      match Find(file, TecAt)
      case Some(c) => Some(ToData(c))
      case None => None
  }

  lemma DatDigital()
    ensures forall x :: DatAt(x).Some? ==> Digital(DatAt(x).value)
  {
  }

  lemma TecDigital()
    ensures forall x :: TecAt(x).Some? ==> Digital(TecAt(x).value)
  {
  }

  lemma StdoutDigital()
    ensures forall x :: StdoutAt(x).Some? ==> Digital(StdoutAt(x).value)
  {
  }

  /** The shared part of the patterns reads a well-formed name back into its three digit strings. */
  lemma SizeTempIndexOf(d: FileData, mid: string, rest: string)
    requires d.index <= 9999
    requires mid != "" && !IsDigit(mid[0])
    ensures SizeTempIndex(Render(d.size as nat) + ("nm_" + (Render(d.temp as nat) + (mid + (Pad4(d.index as nat) + rest)))), mid)
      == Some((Captures(Render(d.size as nat), Render(d.temp as nat), Pad4(d.index as nat)), rest))
  {
    var ds := Pad4(d.index as nat);
    var e := ds + rest;
    var c := mid + e;
    var b := Render(d.temp as nat) + c;
    var a := "nm_" + b;
    DigitsOf(Render(d.size as nat), a);
    LitPrefix("nm_", b);
    DigitsOf(Render(d.temp as nat), c);
    LitPrefix(mid, e);
    Pad4Width(d.index as nat);
    assert e[..4] == ds && e[4..] == rest;
  }

  /** Stored values that `toInt` can read back, and an index that fits the four-digit field. */
  predicate Readable(d: FileData) {
    d.size as nat <= IntMax && d.temp as nat <= IntMax && d.index <= 9999
  }

  lemma ToDataOf(d: FileData)
    requires Readable(d)
    ensures Digital(Captures(Render(d.size as nat), Render(d.temp as nat), Pad4(d.index as nat)))
    ensures ToData(Captures(Render(d.size as nat), Render(d.temp as nat), Pad4(d.index as nat))) == d
  {
    ValueRender(d.size as nat);
    ValueRender(d.temp as nat);
    Pad4Width(d.index as nat);
  }

  /** A name built only of digits and the pattern's words lacks every other character. */
  lemma FileNameLacks(d: FileData, ext: string, ch: char)
    requires !IsDigit(ch) && ch !in "nm_" && ch !in "C_mag_" && ch !in ext
    ensures ch !in FileName(d, ext)
  {
    var r1, r2, p := Render(d.size as nat), Render(d.temp as nat), Pad4(d.index as nat);
    assert ch !in r1 && ch !in r2 && ch !in p by {
      assert forall i :: 0 <= i < |r1| ==> IsDigit(r1[i]);
      assert forall i :: 0 <= i < |r2| ==> IsDigit(r2[i]);
      assert forall i :: 0 <= i < |p| ==> IsDigit(p[i]);
    }
  }

  /** Every match of the data-file pattern holds the `d` of `.dat`. */
  lemma DatHoldsD(x: string)
    requires DatAt(x).Some?
    ensures 'd' in x
  {
    var c, rest := OpenDat(x);
    HeldInRest(x, c, "C_mag_", rest, ".dat", 1);
  }

  /** A data-file match splits into its captures and a rest that starts with `.dat`. */
  lemma OpenDat(x: string) returns (c: Captures, rest: string)
    requires DatAt(x).Some?
    ensures x == c.size + ("nm_" + (c.temp + ("C_mag_" + (c.index + rest))))
    ensures ".dat" <= rest
  {
    var m := SizeTempIndex(x, "C_mag_").value;
    c, rest := m.0, m.1;
  }

  /** A character of the literal that starts the rest of a match is a character of the match. */
  lemma HeldInRest(x: string, c: Captures, mid: string, rest: string, lit: string, k: nat)
    requires x == c.size + ("nm_" + (c.temp + (mid + (c.index + rest))))
    requires lit <= rest && k < |lit|
    ensures lit[k] in x
  {
    var p := c.size + ("nm_" + (c.temp + (mid + c.index)));
    assert x == p + rest;
    assert x[|p| + k] == rest[k] == lit[k];
  }

  /** Every match of the run-log pattern starts with the `s` of `stdout`. */
  lemma StdoutHoldsS(x: string)
    requires StdoutAt(x).Some?
    ensures 's' in x
  {
    assert "stdout_lcl_" <= x;
    assert x[0] == 's';
  }

  /** The data-file pattern finds nothing in a field file name, which has no `d`. */
  lemma DatNotInTec(d: FileData)
    ensures Search(TecName(d), DatAt).None?
  {
    forall x | DatAt(x).Some?
      ensures 'd' in x
    {
      DatHoldsD(x);
    }
    FileNameLacks(d, "_mult.tec", 'd');
    SearchWithout(TecName(d), DatAt, 'd');
  }

  /** The run-log pattern finds nothing in a field file name, which has no `s`. */
  lemma StdoutNotInTec(d: FileData)
    ensures Search(TecName(d), StdoutAt).None?
  {
    forall x | StdoutAt(x).Some?
      ensures 's' in x
    {
      StdoutHoldsS(x);
    }
    FileNameLacks(d, "_mult.tec", 's');
    SearchWithout(TecName(d), StdoutAt, 's');
  }

  /** A data file name reads back as the values it was built from. */
  lemma DatRoundTrip(d: FileData)
    requires Readable(d)
    ensures Extract(DatName(d)) == Some(d)
  {
    SizeTempIndexOf(d, "C_mag_", ".dat");
    ToDataOf(d);
    SearchAtStart(DatName(d), DatAt);
  }

  /**
   * A field file name reads back as the values it was built from: the
   * data-file pattern, tried first, finds nothing in it.
   */
  lemma TecRoundTrip(d: FileData)
    requires Readable(d)
    ensures Extract(TecName(d)) == Some(d)
  {
    DatNotInTec(d);
    SizeTempIndexOf(d, "C_mag_", "_mult.tec");
    ToDataOf(d);
    SearchAtStart(TecName(d), TecAt);
  }

  /** A size beyond `INT_MAX` is written out in full but read back as 0 by `toInt`. */
  lemma LargeSizeReadsZero(d: FileData)
    requires d.size as nat > IntMax && d.temp as nat <= IntMax && d.index <= 9999
    ensures Extract(DatName(d)) == Some(d.(size := 0))
  {
    SizeTempIndexOf(d, "C_mag_", ".dat");
    SearchAtStart(DatName(d), DatAt);
    ValueRender(d.size as nat);
    ValueRender(d.temp as nat);
    Pad4Width(d.index as nat);
  }

  // ---------------------------------------------------------------------------
  // Marker names
  // ---------------------------------------------------------------------------

  /** The marker name for an index: bare for 0, otherwise with the index padded to four digits. */
  function NameFromIndex(n: uint): string {
    if n > 0 then "START_END_" + Pad4(n as nat) else "START_END"
  }

  /** An exact match of `START_END(_([0-9]{4}))?`: the four digits read with `toInt`, or 0 without them. */
  function ParseName(name: string): (r: Option<uint>)
    ensures r.Some? ==> r.value <= 9999
  {
    if name == "START_END" then Some(0)
    else if |name| == 14 && name[..10] == "START_END_" && AllDigits(name[10..]) then
      ValueAtMost4(name[10..]);
      Some(ToInt(name[10..]) as uint)
    else None
  }

  /** Up to 9999, an index survives the trip through its marker name. */
  lemma NameRoundTrip(n: uint)
    requires n <= 9999
    ensures ParseName(NameFromIndex(n)) == Some(n)
  {
    if n > 0 {
      var name := NameFromIndex(n);
      Pad4Width(n as nat);
      assert name[..10] == "START_END_" && name[10..] == Pad4(n as nat);
    }
  }

  /** From 10000 on, the padded index has five or more digits and the name no longer parses. */
  lemma NameBeyondFourDigits(n: uint)
    requires n > 9999
    ensures ParseName(NameFromIndex(n)) == None
  {
    Pad4Width(n as nat);
  }

  /**
   * A parsed name is the name of its index, except that `START_END_0000`
   * parses to the index of the bare `START_END`.
   */
  lemma ParseNameInverse(name: string)
    requires ParseName(name).Some?
    ensures ParseName(name).value > 0 ==> NameFromIndex(ParseName(name).value) == name
    ensures ParseName(name).value == 0 ==> name == "START_END" || name == "START_END_0000"
  {
    if name != "START_END" {
      var ds := name[10..];
      ValueAtMost4(ds);
      Pad4Value(ds);
      assert name == "START_END_" + ds;
      if Value(ds) == 0 {
        ZerosThenRender(ds);
        assert ds == "0000";
      }
    }
  }

  // ---------------------------------------------------------------------------
  // The pair
  // ---------------------------------------------------------------------------

  /**
   * `StartEndPair`. A field the constructor could not read is `None`: the
   * name index when the name is not a marker name, the start or end values
   * when the file name matches neither pattern.
   */
  datatype StartEndPair = StartEndPair(
    absLoc: string,
    name: string,
    nameIndex: Option<uint>,
    start: Option<FileData>,
    end: Option<FileData>)

  /** `updateStartEndPair`: each half takes what its file name holds, and keeps its old value otherwise. */
  function Update(p: StartEndPair, start: string, end: string): (r: StartEndPair)
    ensures r.absLoc == p.absLoc && r.name == p.name && r.nameIndex == p.nameIndex
    ensures Extract(start).Some? ==> r.start == Extract(start)
    ensures Extract(start).None? ==> r.start == p.start
    ensures Extract(end).Some? ==> r.end == Extract(end)
    ensures Extract(end).None? ==> r.end == p.end
  {
    p.(start := if Extract(start).Some? then Extract(start) else p.start,
       end := if Extract(end).Some? then Extract(end) else p.end)
  }

  /** The constructor from a marker name. */
  function FromName(start: string, end: string, name: string, absLoc: string): (r: StartEndPair)
    ensures r.name == name && r.nameIndex == ParseName(name) && r.absLoc == absLoc
    ensures r.start == Extract(start) && r.end == Extract(end)
  {
    Update(StartEndPair(absLoc, name, ParseName(name), None, None), start, end)
  }

  /** The constructor from a marker index. */
  function FromIndex(start: string, end: string, n: uint, absLoc: string): (r: StartEndPair)
    ensures r.name == NameFromIndex(n) && r.nameIndex == Some(n) && r.absLoc == absLoc
    ensures r.start == Extract(start) && r.end == Extract(end)
  {
    Update(StartEndPair(absLoc, NameFromIndex(n), Some(n), None, None), start, end)
  }

  /** Up to 9999 the two constructors build the same pair from an index and from its name. */
  lemma ConstructorsAgree(start: string, end: string, n: uint, absLoc: string)
    requires n <= 9999
    ensures FromName(start, end, NameFromIndex(n), absLoc) == FromIndex(start, end, n, absLoc)
  {
    NameRoundTrip(n);
  }

  /** `*AsDatFile(absPath)`: the name of the data file of one half. */
  function AsDatFile(p: StartEndPair, d: FileData, absPath: bool): (r: string)
    ensures |DatName(d)| <= |r| && r[|r| - |DatName(d)|..] == DatName(d)
    ensures absPath ==> |p.absLoc| + 1 <= |r| && r[..|p.absLoc| + 1] == p.absLoc + "/"
    ensures r == (if absPath then p.absLoc + "/" else "") + DatName(d)
  {
    WithDir(absPath, p.absLoc, DatName(d))
  }

  /** `*AsTecFile(absPath)`: the name of the field file of one half. */
  function AsTecFile(p: StartEndPair, d: FileData, absPath: bool): (r: string)
    ensures |TecName(d)| <= |r| && r[|r| - |TecName(d)|..] == TecName(d)
    ensures absPath ==> |p.absLoc| + 1 <= |r| && r[..|p.absLoc| + 1] == p.absLoc + "/"
    ensures r == (if absPath then p.absLoc + "/" else "") + TecName(d)
  {
    WithDir(absPath, p.absLoc, TecName(d))
  }

  /** A pair built from its own file names holds the values it was built from. */
  lemma PairRoundTrip(s: FileData, e: FileData, n: uint, absLoc: string)
    requires Readable(s) && Readable(e)
    ensures FromIndex(DatName(s), TecName(e), n, absLoc).start == Some(s)
    ensures FromIndex(DatName(s), TecName(e), n, absLoc).end == Some(e)
  {
    DatRoundTrip(s);
    TecRoundTrip(e);
  }

  /**
   * Updating a pair from the bare file names it produces itself, the data
   * file of its start and the field file of its end, changes nothing.
   */
  lemma UpdateFromOwnFiles(p: StartEndPair, s: FileData, e: FileData)
    requires p.start == Some(s) && p.end == Some(e)
    requires Readable(s) && Readable(e)
    ensures Update(p, AsDatFile(p, s, false), AsTecFile(p, e, false)) == p
  {
    DatRoundTrip(s);
    TecRoundTrip(e);
  }

  /**
   * `VCompare::getMaxStartEndNameIndex`: the largest marker index among the
   * pairs, or 0 when there are none.
   */
  method MaxNameIndex(pairs: seq<StartEndPair>) returns (m: nat)
    requires forall i :: 0 <= i < |pairs| ==> pairs[i].nameIndex.Some?
    ensures forall i :: 0 <= i < |pairs| ==> pairs[i].nameIndex.value as nat <= m
    ensures m == 0 || exists i :: 0 <= i < |pairs| && pairs[i].nameIndex.value as nat == m
  {
    m := 0;
    var k := 0;
    while k < |pairs|
      invariant k <= |pairs|
      invariant forall i :: 0 <= i < k ==> pairs[i].nameIndex.value as nat <= m
      invariant m == 0 || exists i :: 0 <= i < k && pairs[i].nameIndex.value as nat == m
    {
      if m < pairs[k].nameIndex.value as nat {
        m := pairs[k].nameIndex.value as nat;
      }
      k := k + 1;
    }
  }

  // ---------------------------------------------------------------------------
  // `FieldDataHasher`
  // ---------------------------------------------------------------------------

  /** `stdout_lcl_<size>nm_<temp>C_<NNNN>`, the log of the run that produced a field file. */
  function StdoutName(d: FileData): string {
    "stdout_lcl_" + (Render(d.size as nat) + ("nm_" + (Render(d.temp as nat) + ("C_" + Pad4(d.index as nat)))))
  }

  /** The captures read with `toInt` and combined in the order size, temperature, index. */
  function KeyOf(c: Captures, h: int -> bv64): bv64
    requires Digital(c)
  {
    var vs: seq<int> := [ToInt(c.size), ToInt(c.temp), ToInt(c.index)];
    CombineAll(0, vs, h)
  }

  /**
   * `FieldDataHasher::operator()`: the run-log pattern is tried first, then the
   * field-file pattern; a name that matches neither gets 0.
   */
  function FieldKey(file: string, h: int -> bv64): (r: bv64)
    ensures Search(file, StdoutAt).None? && Search(file, TecAt).None? ==> r == 0
    ensures Search(file, StdoutAt).Some? ==>
      Digital(Search(file, StdoutAt).value) && r == KeyOf(Search(file, StdoutAt).value, h)
    ensures Search(file, StdoutAt).None? && Search(file, TecAt).Some? ==>
      Digital(Search(file, TecAt).value) && r == KeyOf(Search(file, TecAt).value, h)
  {
    StdoutDigital();
    TecDigital();
    match Find(file, StdoutAt)
    case Some(c) => KeyOf(c, h)
    case None =>
      match Find(file, TecAt)
      case Some(c) => KeyOf(c, h)
      case None => 0
  }

  /** A run's log name reads back as the values it was built from. */
  lemma StdoutFound(d: FileData)
    requires Readable(d)
    ensures StdoutAt(StdoutName(d)).Some?
    ensures Search(StdoutName(d), StdoutAt) == Some(Captures(Render(d.size as nat), Render(d.temp as nat), Pad4(d.index as nat)))
  {
    var body := Render(d.size as nat) + ("nm_" + (Render(d.temp as nat) + ("C_" + (Pad4(d.index as nat) + ""))));
    assert Pad4(d.index as nat) + "" == Pad4(d.index as nat);
    SizeTempIndexOf(d, "C_", "");
    LitPrefix("stdout_lcl_", body);
    SearchAtStart(StdoutName(d), StdoutAt);
  }

  /** The text holds no `stdout_lcl_`, the word every run-log name starts with. */
  predicate NoLogWord(dir: string) {
    forall j :: 0 <= j <= |dir| ==> !("stdout_lcl_" <= dir[j..])
  }

  /** A pattern that matches at `k` and at no earlier position is found there. */
  lemma SearchFirstAt<T>(s: string, at: string -> Option<T>, k: nat)
    requires k <= |s| && at(s[k..]).Some?
    requires forall j :: 0 <= j < k ==> at(s[j..]).None?
    ensures Search(s, at) == at(s[k..])
  {
    var j :| 0 <= j <= |s| && at(s[j..]) == Search(s, at) && forall i :: 0 <= i < j ==> at(s[i..]).None?;
  }

  /** Every run-log match starts with the word `stdout_lcl_`. */
  lemma StdoutStartsWithWord(x: string)
    requires StdoutAt(x).Some?
    ensures "stdout_lcl_" <= x
  {
  }

  /** The word holds no '/', so in a path it cannot start in a directory that lacks it. */
  lemma WordNotInPath(dir: string, name: string, j: nat)
    requires NoLogWord(dir) && j <= |dir|
    ensures !("stdout_lcl_" <= (dir + "/" + name)[j..])
  {
    var w := "stdout_lcl_";
    var t := (dir + "/" + name)[j..];
    assert |w| == 11;
    if j + 11 <= |dir| {
      assert !(w <= dir[j..]);
      assert dir[j..][..11] == t[..11];
    } else {
      var i := |dir| - j;
      assert t[i] == '/' && w[i] != '/';
    }
  }

  /** In a path, no run-log match starts in a directory that holds no `stdout_lcl_`. */
  lemma NoLogMatchInDir(dir: string, name: string, j: nat)
    requires NoLogWord(dir) && j <= |dir|
    ensures StdoutAt((dir + "/" + name)[j..]).None?
  {
    WordNotInPath(dir, name, j);
    if StdoutAt((dir + "/" + name)[j..]).Some? {
      StdoutStartsWithWord((dir + "/" + name)[j..]);
    }
  }

  /** The run-log pattern finds in a path what it finds in the file's own name. */
  lemma SearchLogInDir(dir: string, name: string)
    requires NoLogWord(dir) && StdoutAt(name).Some?
    ensures Search(dir + "/" + name, StdoutAt) == Search(name, StdoutAt)
  {
    var s := dir + "/" + name;
    var k := |dir| + 1;
    assert s[k..] == name;
    forall j | 0 <= j < k
      ensures StdoutAt(s[j..]).None?
    {
      NoLogMatchInDir(dir, name, j);
    }
    SearchFirstAt(s, StdoutAt, k);
    SearchAtStart(name, StdoutAt);
  }

  /**
   * A run's log, named by its path in a directory that holds no
   * `stdout_lcl_`, gets the key of its bare name.
   */
  lemma LogKeyInDir(dir: string, d: FileData, h: int -> bv64)
    requires Readable(d) && NoLogWord(dir)
    ensures FieldKey(dir + "/" + StdoutName(d), h) == FieldKey(StdoutName(d), h)
  {
    StdoutFound(d);
    SearchLogInDir(dir, StdoutName(d));
  }

  /** A field file name is found by the field-file pattern at its start. */
  lemma TecFound(d: FileData)
    requires Readable(d)
    ensures Search(TecName(d), TecAt) == Some(Captures(Render(d.size as nat), Render(d.temp as nat), Pad4(d.index as nat)))
  {
    SizeTempIndexOf(d, "C_mag_", "_mult.tec");
    SearchAtStart(TecName(d), TecAt);
  }

  /**
   * A run's log and its field file get the same key: the combination of size,
   * temperature and index, in that order.
   */
  lemma LogAndFieldShareKey(d: FileData, h: int -> bv64)
    requires Readable(d)
    ensures FieldKey(StdoutName(d), h) == CombineAll(0, [d.size as int, d.temp as int, d.index as int], h)
    ensures FieldKey(TecName(d), h) == CombineAll(0, [d.size as int, d.temp as int, d.index as int], h)
  {
    ToDataOf(d);
    var c := Captures(Render(d.size as nat), Render(d.temp as nat), Pad4(d.index as nat));
    var xs: seq<int> := [ToInt(c.size), ToInt(c.temp), ToInt(c.index)];
    var ys: seq<int> := [d.size as int, d.temp as int, d.index as int];
    assert xs == ys;
    assert KeyOf(c, h) == CombineAll(0, xs, h);
    assert CombineAll(0, xs, h) == CombineAll(0, ys, h);
    StdoutFound(d);
    assert FieldKey(StdoutName(d), h) == KeyOf(c, h);
    StdoutNotInTec(d);
    TecFound(d);
    assert FieldKey(TecName(d), h) == KeyOf(c, h);
  }
}
