/**
 * The name helpers of a loaded field, from src/VectorField.cpp: `tail`,
 * `nameIndex`, `split` and `displayName`. A field's name is the path of the
 * file it was loaded from, with '/' between directories.
 */
module Paths {
  import opened Streams
  import opened Decimal
  import opened Names
  import Energy

  function Min(a: nat, b: nat): nat {
    if a <= b then a else b
  }

  /** `tail(source, length)`: the last `length` characters, or all of a shorter text. */
  function Tail(source: string, length: nat): (r: string)
    ensures |r| == Min(length, |source|)
    ensures r == source[|source| - |r|..]
  {
    if length >= |source| then source else source[|source| - length..]
  }

  /**
   * `nameIndex`: the first four of the last 13 characters, where a field file
   * `..._XXXX_mult.tec` keeps its four-digit index; `substr` stops early on a
   * shorter text.
   */
  function NameIndex(name: string): (r: string)
    ensures |r| == Min(4, |name|)
    ensures |name| >= 13 ==> r == name[|name| - 13..|name| - 9]
    ensures |name| < 13 ==> r == name[..|r|]
  {
    var end := Tail(name, 13);
    end[..Min(4, |end|)]
  }

  /** The index read back from a field file's name is its padded index, whatever the directory. */
  lemma NameIndexOfFieldFile(p: StartEndPair, d: FileData, absPath: bool)
    requires d.index <= 9999
    ensures NameIndex(AsTecFile(p, d, absPath)) == Pad4(d.index as nat)
    ensures Value(NameIndex(AsTecFile(p, d, absPath))) == d.index as nat
  {
    var r := AsTecFile(p, d, absPath);
    var t := TecName(d);
    var pad := Pad4(d.index as nat);
    Pad4Width(d.index as nat);
    assert t == Render(d.size as nat) + "nm_" + Render(d.temp as nat) + "C_mag_" + (pad + "_mult.tec");
    var tail := pad + "_mult.tec";
    assert |tail| == 13;
    assert r[|r| - 13..] == t[|t| - 13..] == tail;
    assert NameIndex(r) == tail[..4];
  }

  /**
   * `displayName`: the last '/'-separated token of the name. The name must
   * not be empty: an empty name has no tokens, and taking the last of none is
   * undefined.
   */
  function DisplayName(name: string): (r: string)
    requires name != ""
    ensures '/' !in r
    ensures r in Split(name, '/')
  {
    var tokens := Split(name, '/');
    tokens[|tokens| - 1]
  }

  /** A '/'-free text is split into itself alone. */
  lemma SplitBare(f: string, d: char)
    requires f != "" && d !in f
    ensures Split(f, d) == [f]
  {
    IndexOfAbsent(f, d);
  }

  /** The last token of a text that ends in a delimiter and a delimiter-free word is that word. */
  lemma {:induction false} SplitLast(p: string, f: string, d: char)
    requires f != "" && d !in f
    ensures |Split(p + [d] + f, d)| > 0
    ensures Split(p + [d] + f, d)[|Split(p + [d] + f, d)| - 1] == f
    decreases |p|
  {
    var s := p + [d] + f;
    var i := IndexOf(s, d);
    assert s[|p|] == d;
    assert i <= |p|;
    if i == |p| {
      assert s[i + 1..] == f;
      SplitBare(f, d);
    } else {
      assert s[i + 1..] == p[i + 1..] + [d] + f;
      SplitLast(p[i + 1..], f, d);
    }
  }

  /** The display name of a file in a directory is the file's own name. */
  lemma DisplayNameOfPath(dir: string, f: string)
    requires f != "" && '/' !in f
    ensures DisplayName(dir + "/" + f) == f
    ensures DisplayName(f) == f
  {
    SplitLast(dir, f, '/');
    SplitBare(f, '/');
  }

  /**
   * The energy shown next to a field: its display name goes to the energy
   * lookup, where the run's log was inserted under its full path. That finds
   * the run's last converged energy, whatever directory the field file is
   * in, when the log's directory does not hold the log pattern's leading word.
   */
  lemma EnergyOfDisplayedField<F>(
    t: Energy.Table<F>, logDir: string, fieldDir: string, d: FileData,
    evals: seq<Energy.Record<F>>, h: int -> bv64, zero: F)
    requires Readable(d) && NoLogWord(logDir)
    ensures Energy.LookupLastEnergy(
        Energy.Insert(t, logDir + "/" + StdoutName(d), evals, h), DisplayName(fieldDir + "/" + TecName(d)), h, zero)
      == Energy.LastEnergy(evals, zero)
  {
    TecNameBare(d);
    DisplayNameOfPath(fieldDir, TecName(d));
    Energy.FoundByFieldFile(t, logDir, d, evals, h, zero);
  }

  /** A field file's name has no '/' in it. */
  lemma TecNameBare(d: FileData)
    ensures TecName(d) != "" && '/' !in TecName(d)
  {
    FileNameLacks(d, "_mult.tec", '/');
  }
}
