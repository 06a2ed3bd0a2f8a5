/**
 * The restart log of a micromagnetics run, from src/DirectoryDatabase.h:
 * `MinimizationData`, the line scan of the `EnergyEvaluations` constructor,
 * `lastEnergy`, and the `EnergyEvaluationsLookup` that finds a run's
 * evaluations by the name of its field file.
 *
 * Each log line is classified by the first of six patterns it contains; the
 * scan is a fold over the classified lines. Energies and energy differences
 * are opaque floating-point values (`F`); `zero` is the value 0.0, and
 * `number` stands for capturing the number at the start of a text and
 * converting it with `QString::toDouble`.
 */
module Energy {
  import opened Results
  import opened Decimal
  import opened Grammar
  import opened Names

  // ---------------------------------------------------------------------------
  // Classifying a line
  // ---------------------------------------------------------------------------

  /** A log line, by the first pattern it contains. */
  datatype LogLine<F> =
    | Restart(index: nat)
    | DeltaF(deltaF: F)
    | Fail
    | NCalls(ncalls: nat)
    | FinalEnergy(energy: F)
    | Finished
    | Other

  /** `<word>\s*:\s*` (or `=`) at the start of the text: what follows it. */
  function Label(s: string, word: string, sep: string): Option<string> {
    var a :- Lit(s, word);
    var b :- Lit(Ws(a), sep);
    Some(Ws(b))
  }

  /** `word\s*sep\s*([0-9]+)`: a labelled count, captured as its digits. */
  function LabelledDigits(s: string, word: string, sep: string): (r: Option<string>)
    ensures r.Some? ==> |r.value| > 0 && AllDigits(r.value)
  {
    var t :- Label(s, word, sep);
    var d :- Digits(t);
    Some(d.0)
  }

  /** `RESTART\s*=\s*([0-9]+)`. */
  function RestartAt(s: string): Option<string> {
    LabelledDigits(s, "RESTART", "=")
  }

  /** `Delta F negligible\s*:\s*(<number>)`. */
  function DeltaFAt<F>(s: string, number: string -> Option<F>): Option<F> {
    var t :- Label(s, "Delta F negligible", ":");
    number(t)
  }

  /** `FAILED TO CONVERGE`. */
  function FailAt(s: string): Option<()> {
    if "FAILED TO CONVERGE" <= s then Some(()) else None
  }

  /** `Energy Calls\s*:\s*([0-9]+)`. */
  function NCallsAt(s: string): Option<string> {
    LabelledDigits(s, "Energy Calls", ":")
  }

  /** `Final Energy\s*:\s*(<number>)`. */
  function FinalAt<F>(s: string, number: string -> Option<F>): Option<F> {
    var t :- Label(s, "Final Energy", ":");
    number(t)
  }

  /** `FINISHED MINIMIZATION RESTARTS`. */
  function FinishedAt(s: string): Option<()> {
    if "FINISHED MINIMIZATION RESTARTS" <= s then Some(()) else None
  }

  /** The captured digits read with `toInt`. */
  function IntOf(ds: Option<string>): nat
    requires ds.Some? ==> AllDigits(ds.value)
  {
    match ds
    case Some(d) => ToInt(d)
    case None => 0
  }

  /**
   * The patterns in the order the constructor tries them; the first one found
   * anywhere in the line decides.
   */
  function Classify<F>(line: string, number: string -> Option<F>): (r: LogLine<F>)
    ensures r.Restart? <==> Search(line, RestartAt).Some?
    ensures Search(line, RestartAt).Some? ==>
      AllDigits(Search(line, RestartAt).value) && r == Restart(ToInt(Search(line, RestartAt).value))
    ensures Search(line, RestartAt).None? && Search(line, x => DeltaFAt(x, number)).Some? ==>
      r == DeltaF(Search(line, x => DeltaFAt(x, number)).value)
    ensures (Search(line, RestartAt).None? && Search(line, x => DeltaFAt(x, number)).None?
             && Search(line, FailAt).Some?) ==>
      r == Fail
    ensures (Search(line, RestartAt).None? && Search(line, x => DeltaFAt(x, number)).None?
             && Search(line, FailAt).None? && Search(line, NCallsAt).Some?) ==>
      AllDigits(Search(line, NCallsAt).value) && r == NCalls(ToInt(Search(line, NCallsAt).value))
    ensures (Search(line, RestartAt).None? && Search(line, x => DeltaFAt(x, number)).None?
             && Search(line, FailAt).None? && Search(line, NCallsAt).None?
             && Search(line, x => FinalAt(x, number)).Some?) ==>
      r == FinalEnergy(Search(line, x => FinalAt(x, number)).value)
    ensures (Search(line, RestartAt).None? && Search(line, x => DeltaFAt(x, number)).None?
             && Search(line, FailAt).None? && Search(line, NCallsAt).None?
             && Search(line, x => FinalAt(x, number)).None? && Search(line, FinishedAt).Some?) ==>
      r == Finished
    ensures r == Other <==>
      && Search(line, RestartAt).None?
      && Search(line, x => DeltaFAt(x, number)).None?
      && Search(line, FailAt).None?
      && Search(line, NCallsAt).None?
      && Search(line, x => FinalAt(x, number)).None?
      && Search(line, FinishedAt).None?
  {
    RestartDigital();
    NCallsDigital();
    var restart := Search(line, RestartAt);
    if restart.Some? then Restart(IntOf(restart))
    else
      var deltaF := Search(line, x => DeltaFAt(x, number));
      if deltaF.Some? then DeltaF(deltaF.value)
      else if Search(line, FailAt).Some? then Fail
      else
        var ncalls := Search(line, NCallsAt);
        if ncalls.Some? then NCalls(IntOf(ncalls))
        else
          var energy := Search(line, x => FinalAt(x, number));
          if energy.Some? then FinalEnergy(energy.value)
          else if Search(line, FinishedAt).Some? then Finished
          else Other
  }

  lemma RestartDigital()
    ensures forall s :: Search(s, RestartAt).Some? ==> AllDigits(Search(s, RestartAt).value)
  {
  }

  lemma NCallsDigital()
    ensures forall s :: Search(s, NCallsAt).Some? ==> AllDigits(Search(s, NCallsAt).value)
  {
  }

  // ---------------------------------------------------------------------------
  // The scan
  // ---------------------------------------------------------------------------

  /** The status text of a restart: "", "CONVERGED" or "FAILED". */
  datatype Status = Unset | Converged | Failed

  /** `MinimizationData`: what the log says about one restart. */
  datatype Record<F> = Record(restartIndex: int, deltaF: F, status: Status, ncalls: int, finalEnergy: F)

  /** The constructor's local variables and the list built so far. */
  datatype Scan<F> = Scan(current: Record<F>, restarts: seq<Record<F>>)

  /** The values the locals are reset to when a restart begins. */
  function Fresh<F>(index: int, zero: F): Record<F> {
    Record(index, zero, Unset, 0, zero)
  }

  /** Before the first line: no restart seen yet (index -1) and no records. */
  function Start<F>(zero: F): Scan<F> {
    Scan(Fresh(-1, zero), [])
  }

  /** One classified line. */
  function Next<F>(s: Scan<F>, line: LogLine<F>, zero: F): (r: Scan<F>)
    ensures s.restarts <= r.restarts
    ensures |r.restarts| <= |s.restarts| + 1
  {
    match line
    case Restart(i) =>
      var kept := if s.current.restartIndex != -1 then s.restarts + [s.current] else s.restarts;
      Scan(Fresh(i, zero), kept)
    case DeltaF(d) => s.(current := s.current.(deltaF := d, status := Converged))
    case Fail => s.(current := s.current.(deltaF := zero, status := Failed))
    case NCalls(n) => s.(current := s.current.(ncalls := n))
    case FinalEnergy(e) => s.(current := s.current.(finalEnergy := e))
    case Finished => s.(restarts := s.restarts + [s.current])
    case Other => s
  }

  function Fold<F>(s: Scan<F>, lines: seq<LogLine<F>>, zero: F): Scan<F>
    decreases |lines|
  {
    if |lines| == 0 then s else Fold(Next(s, lines[0], zero), lines[1..], zero)
  }

  /** The records of a log given as classified lines. */
  function Restarts<F>(lines: seq<LogLine<F>>, zero: F): seq<Record<F>> {
    Fold(Start(zero), lines, zero).restarts
  }

  /**
   * `EnergyEvaluations(stdoutFile)`: the records of a log file, or none at
   * all when the file cannot be opened (`None`).
   */
  function Evaluations<F>(file: Option<seq<string>>, number: string -> Option<F>, zero: F): (r: seq<Record<F>>)
    ensures file.None? ==> r == []
    ensures file.Some? ==>
      var ls := Classified(file.value, number);
      |r| == CountFinished(ls) + (if CountRestarts(ls) > 0 then CountRestarts(ls) - 1 else 0)
  {
    match file
    case None => []
    case Some(lines) =>
      RecordCount(Classified(lines, number), zero);
      Restarts(Classified(lines, number), zero)
  }

  /** The classification of every line of a log, in order. */
  function Classified<F>(lines: seq<string>, number: string -> Option<F>): (r: seq<LogLine<F>>)
    ensures |r| == |lines|
  {
    seq(|lines|, i requires 0 <= i < |lines| => Classify(lines[i], number))
  }

  function CountRestarts<F>(lines: seq<LogLine<F>>): nat
    decreases |lines|
  {
    if |lines| == 0 then 0 else (if lines[0].Restart? then 1 else 0) + CountRestarts(lines[1..])
  }

  function CountFinished<F>(lines: seq<LogLine<F>>): nat
    decreases |lines|
  {
    if |lines| == 0 then 0 else (if lines[0] == Finished then 1 else 0) + CountFinished(lines[1..])
  }

  /**
   * The fold from any state: every FINISHED line adds one record, and every
   * RESTART line adds one except a first one met while no restart is open.
   */
  lemma {:induction false} FoldCount<F>(s: Scan<F>, lines: seq<LogLine<F>>, zero: F)
    ensures s.restarts <= Fold(s, lines, zero).restarts
    ensures |Fold(s, lines, zero).restarts| ==
      |s.restarts| + CountFinished(lines) + CountRestarts(lines)
      - (if s.current.restartIndex == -1 && CountRestarts(lines) > 0 then 1 else 0)
    decreases |lines|
  {
    if |lines| > 0 {
      var t := Next(s, lines[0], zero);
      FoldCount(t, lines[1..], zero);
    }
  }

  /**
   * A log yields one record per FINISHED line, plus one per RESTART line
   * after the first: the first restart has nothing before it to close.
   */
  lemma RecordCount<F>(lines: seq<LogLine<F>>, zero: F)
    ensures |Restarts(lines, zero)| ==
      CountFinished(lines) + (if CountRestarts(lines) > 0 then CountRestarts(lines) - 1 else 0)
  {
    FoldCount(Start(zero), lines, zero);
  }

  /** Appending lines only appends records: earlier records never change. */
  lemma {:induction false} RestartsGrow<F>(lines: seq<LogLine<F>>, more: seq<LogLine<F>>, zero: F)
    ensures Restarts(lines, zero) <= Restarts(lines + more, zero)
  {
    FoldAppend(Start(zero), lines, more, zero);
    FoldCount(Fold(Start(zero), lines, zero), more, zero);
  }

  lemma {:induction false} FoldAppend<F>(s: Scan<F>, lines: seq<LogLine<F>>, more: seq<LogLine<F>>, zero: F)
    ensures Fold(s, lines + more, zero) == Fold(Fold(s, lines, zero), more, zero)
    decreases |lines|
  {
    if |lines| == 0 {
      assert lines + more == more;
    } else {
      assert (lines + more)[1..] == lines[1..] + more;
      FoldAppend(Next(s, lines[0], zero), lines[1..], more, zero);
    }
  }

  /**
   * What a record can hold: a CONVERGED status comes with the Delta F value
   * of a line of the log, any other status with Delta F 0.0; the restart
   * index is -1 or the index of a RESTART line; the call count is 0 or that
   * of an `Energy Calls` line, and the final energy 0.0 or that of a
   * `Final Energy` line.
   */
  ghost predicate Sound<F>(r: Record<F>, lines: seq<LogLine<F>>, zero: F) {
    && (r.status == Converged ==> DeltaF(r.deltaF) in lines)
    && (r.status != Converged ==> r.deltaF == zero)
    && (r.restartIndex == -1 || (r.restartIndex >= 0 && Restart(r.restartIndex as nat) in lines))
    && (r.ncalls == 0 || (r.ncalls > 0 && NCalls(r.ncalls as nat) in lines))
    && (r.finalEnergy == zero || FinalEnergy(r.finalEnergy) in lines)
  }

  ghost predicate ScanSound<F>(s: Scan<F>, lines: seq<LogLine<F>>, zero: F) {
    && Sound(s.current, lines, zero)
    && forall j :: 0 <= j < |s.restarts| ==> Sound(s.restarts[j], lines, zero)
  }

  lemma NextSound<F>(s: Scan<F>, lines: seq<LogLine<F>>, line: LogLine<F>, zero: F)
    requires ScanSound(s, lines, zero)
    ensures ScanSound(Next(s, line, zero), lines + [line], zero)
  {
    var t := Next(s, line, zero);
    forall j | 0 <= j < |t.restarts|
      ensures Sound(t.restarts[j], lines + [line], zero)
    {
      if j < |s.restarts| {
        assert t.restarts[j] == s.restarts[j];
      }
    }
  }

  /** Every record of a log is sound with respect to that log. */
  lemma {:induction false} RestartsSound<F>(lines: seq<LogLine<F>>, zero: F)
    ensures ScanSound(Fold(Start(zero), lines, zero), lines, zero)
    decreases |lines|
  {
    if |lines| > 0 {
      var init := lines[..|lines| - 1];
      var last := lines[|lines| - 1];
      RestartsSound(init, zero);
      FoldAppend(Start(zero), init, [last], zero);
      assert init + [last] == lines;
      NextSound(Fold(Start(zero), init, zero), init, last, zero);
    }
  }

  /**
   * The records of a log: a converged one reports a Delta F value that some
   * line of the log gave; any other reports Delta F 0.0.
   */
  lemma RecordsFromLog<F>(lines: seq<LogLine<F>>, zero: F, k: nat)
    requires k < |Restarts(lines, zero)|
    ensures Restarts(lines, zero)[k].status == Converged ==> DeltaF(Restarts(lines, zero)[k].deltaF) in lines
    ensures Restarts(lines, zero)[k].status != Converged ==> Restarts(lines, zero)[k].deltaF == zero
    ensures Restarts(lines, zero)[k].restartIndex == -1 || (Restarts(lines, zero)[k].restartIndex >= 0 && Restart(Restarts(lines, zero)[k].restartIndex as nat) in lines)
    ensures Restarts(lines, zero)[k].ncalls == 0 || (Restarts(lines, zero)[k].ncalls > 0 && NCalls(Restarts(lines, zero)[k].ncalls as nat) in lines)
    ensures Restarts(lines, zero)[k].finalEnergy == zero || FinalEnergy(Restarts(lines, zero)[k].finalEnergy) in lines
  {
    RestartsSound(lines, zero);
  }

  // ---------------------------------------------------------------------------
  // Recognised lines
  // ---------------------------------------------------------------------------

  /** A line `RESTART=<digits>` opens restart number `toInt(<digits>)`. */
  lemma RestartLine<F>(ds: string, number: string -> Option<F>)
    requires |ds| > 0 && AllDigits(ds)
    ensures Classify("RESTART=" + ds, number) == Restart(ToInt(ds))
  {
    var line := "RESTART=" + ds;
    assert line == "RESTART" + ("=" + ds);
    LitPrefix("RESTART", "=" + ds);
    WsNone("=" + ds);
    LitPrefix("=", ds);
    WsNone(ds);
    DigitsOf(ds, "");
    assert ds + "" == ds;
    assert RestartAt(line) == Some(ds);
    SearchAtStart(line, RestartAt);
  }

  /** A text that starts with `w` holds each character of `w`. */
  lemma PrefixHolds(x: string, w: string, k: nat)
    requires w <= x && k < |w|
    ensures w[k] in x
  {
    assert x[k] == w[k];
  }

  /** Every match of the restart pattern holds the `S` of `RESTART` and its `=`. */
  lemma RestartHolds(x: string)
    requires RestartAt(x).Some?
    ensures 'S' in x && '=' in x
  {
    PrefixHolds(x, "RESTART", 2);
    var a := x[7..];
    assert Lit(x, "RESTART") == Some(a);
    var w := Ws(a);
    WsSuffix(a);
    assert "=" <= w;
    assert x[7 + |a| - |w|] == w[0] == '=';
  }

  /** A text without `S` or without `=` holds no restart pattern. */
  lemma RestartAbsent(line: string, c: char)
    requires c == 'S' || c == '='
    requires c !in line
    ensures Search(line, RestartAt).None?
  {
    forall x | RestartAt(x).Some?
      ensures c in x
    {
      RestartHolds(x);
    }
    SearchWithout(line, RestartAt, c);
  }

  /** A text without the `e` of `Delta` holds no Delta F pattern. */
  lemma DeltaFAbsent<F>(line: string, number: string -> Option<F>)
    requires 'e' !in line
    ensures Search(line, x => DeltaFAt(x, number)).None?
  {
    forall x | DeltaFAt(x, number).Some?
      ensures 'e' in x
    {
      PrefixHolds(x, "Delta F negligible", 1);
    }
    SearchWithout(line, x => DeltaFAt(x, number), 'e');
  }

  /** A text without the `V` of `CONVERGE` holds no failure pattern. */
  lemma FailAbsent(line: string)
    requires 'V' !in line
    ensures Search(line, FailAt).None?
  {
    forall x | FailAt(x).Some?
      ensures 'V' in x
    {
      PrefixHolds(x, "FAILED TO CONVERGE", 13);
    }
    SearchWithout(line, FailAt, 'V');
  }

  /** A text without the `n` of `Energy` holds no call-count pattern. */
  lemma NCallsAbsent(line: string)
    requires 'n' !in line
    ensures Search(line, NCallsAt).None?
  {
    forall x | NCallsAt(x).Some?
      ensures 'n' in x
    {
      PrefixHolds(x, "Energy Calls", 1);
    }
    SearchWithout(line, NCallsAt, 'n');
  }

  /** A text without the `i` of `Final` holds no final-energy pattern. */
  lemma FinalAbsent<F>(line: string, number: string -> Option<F>)
    requires 'i' !in line
    ensures Search(line, x => FinalAt(x, number)).None?
  {
    forall x | FinalAt(x, number).Some?
      ensures 'i' in x
    {
      PrefixHolds(x, "Final Energy", 1);
    }
    SearchWithout(line, x => FinalAt(x, number), 'i');
  }

  /** The failure line of a restart is classified as such. */
  lemma FailLine<F>(number: string -> Option<F>)
    ensures Classify("FAILED TO CONVERGE", number) == Fail
  {
    var line := "FAILED TO CONVERGE";
    assert 'S' !in line && 'e' !in line;
    RestartAbsent(line, 'S');
    DeltaFAbsent(line, number);
    SearchAtStart(line, FailAt);
  }

  /** The closing line is capitals and spaces only, and has no `V`. */
  lemma FinishedLineLacks()
    ensures forall c :: c in "FINISHED MINIMIZATION RESTARTS" ==> 'A' <= c <= 'Z' || c == ' '
    ensures 'V' !in "FINISHED MINIMIZATION RESTARTS"
  {
  }

  /**
   * The closing line holds the word RESTART but not a restart pattern, and
   * none of the four patterns tried before its own: it closes the last restart.
   */
  lemma FinishedLine<F>(number: string -> Option<F>)
    ensures Classify("FINISHED MINIMIZATION RESTARTS", number) == Finished
  {
    var line := "FINISHED MINIMIZATION RESTARTS";
    FinishedLineLacks();
    RestartAbsent(line, '=');
    DeltaFAbsent(line, number);
    FailAbsent(line);
    NCallsAbsent(line);
    FinalAbsent(line, number);
    SearchAtStart(line, FinishedAt);
  }

  // ---------------------------------------------------------------------------
  // lastEnergy
  // ---------------------------------------------------------------------------

  /**
   * `lastEnergy`: the final energy of the last converged restart and `true`,
   * or 0.0 and `false` when no restart converged.
   */
  function LastEnergy<F>(restarts: seq<Record<F>>, zero: F): (r: (F, bool))
    ensures r.1 <==> exists k :: 0 <= k < |restarts| && restarts[k].status == Converged
    ensures r.1 ==> exists k :: IsLastConverged(restarts, k) && r.0 == restarts[k].finalEnergy
    ensures !r.1 ==> r.0 == zero
    decreases |restarts|
  {
    if |restarts| == 0 then (zero, false)
    else
      var last := restarts[|restarts| - 1];
      if last.status == Converged then
        assert IsLastConverged(restarts, |restarts| - 1);
        (last.finalEnergy, true)
      else
        var init := restarts[..|restarts| - 1];
        var r := LastEnergy(init, zero);
        assert restarts == init + [last];
        ConvergedSnoc(init, last);
        assert r.1 ==> exists k :: IsLastConverged(restarts, k) && r.0 == restarts[k].finalEnergy by {
          if r.1 {
            var k :| IsLastConverged(init, k) && r.0 == init[k].finalEnergy;
            LastConvergedSnoc(init, last, k);
          }
        }
        r
  }

  /** Record `k` converged, and no later record did. */
  ghost predicate IsLastConverged<F>(restarts: seq<Record<F>>, k: int) {
    && 0 <= k < |restarts|
    && restarts[k].status == Converged
    && forall j :: k < j < |restarts| ==> restarts[j].status != Converged
  }

  /** A record that did not converge, appended at the end, keeps the last converged one. */
  lemma LastConvergedSnoc<F>(init: seq<Record<F>>, last: Record<F>, k: int)
    requires last.status != Converged && IsLastConverged(init, k)
    ensures IsLastConverged(init + [last], k) && (init + [last])[k] == init[k]
  {
    var rs := init + [last];
    forall j | k < j < |rs|
      ensures rs[j].status != Converged
    {
      if j < |init| {
        assert rs[j] == init[j];
      }
    }
  }

  /** ... and changes nothing about whether some record converged. */
  lemma ConvergedSnoc<F>(init: seq<Record<F>>, last: Record<F>)
    requires last.status != Converged
    ensures (exists k :: 0 <= k < |init + [last]| && (init + [last])[k].status == Converged) <==>
      (exists k :: 0 <= k < |init| && init[k].status == Converged)
  {
    var rs := init + [last];
    if exists k :: 0 <= k < |rs| && rs[k].status == Converged {
      var k :| 0 <= k < |rs| && rs[k].status == Converged;
      assert k < |init| && init[k] == rs[k];
    }
    if exists k :: 0 <= k < |init| && init[k].status == Converged {
      var k :| 0 <= k < |init| && init[k].status == Converged;
      assert rs[k] == init[k];
    }
  }

  /** The loop of `lastEnergy`: every converged record overwrites the result. */
  method ScanLastEnergy<F>(restarts: seq<Record<F>>, zero: F) returns (energy: F, valid: bool)
    ensures (energy, valid) == LastEnergy(restarts, zero)
  {
    energy, valid := zero, false;
    var i := 0;
    while i < |restarts|
      invariant 0 <= i <= |restarts|
      invariant (energy, valid) == LastEnergy(restarts[..i], zero)
    {
      assert restarts[..i + 1][..i] == restarts[..i];
      if restarts[i].status == Converged {
        energy, valid := restarts[i].finalEnergy, true;
      }
      i := i + 1;
    }
    assert restarts[..i] == restarts;
  }

  // ---------------------------------------------------------------------------
  // EnergyEvaluationsLookup
  // ---------------------------------------------------------------------------

  /** The lookup's map from `FieldDataHasher` keys (`size_t`, held as their values) to a run's records. */
  type Table<F> = map<nat, seq<Record<F>>>

  function Key(file: string, h: int -> bv64): nat {
    FieldKey(file, h) as nat
  }

  /** `insert(file, evals)`: the records go under the file's key, replacing what was there. */
  function Insert<F>(t: Table<F>, file: string, evals: seq<Record<F>>, h: int -> bv64): (r: Table<F>)
    ensures Key(file, h) in r && r[Key(file, h)] == evals
    ensures forall k :: k in t && k != Key(file, h) ==> k in r && r[k] == t[k]
  {
    t[Key(file, h) := evals]
  }

  /** `value(file)`: the records under the file's key; a missing key gives no records. */
  function Value<F>(t: Table<F>, file: string, h: int -> bv64): (r: seq<Record<F>>)
    ensures Key(file, h) in t ==> r == t[Key(file, h)]
    ensures Key(file, h) !in t ==> r == []
  {
    if Key(file, h) in t then t[Key(file, h)] else []
  }

  /** `lastEnergy(file)` of the lookup. */
  function LookupLastEnergy<F>(t: Table<F>, file: string, h: int -> bv64, zero: F): (r: (F, bool))
    ensures Key(file, h) !in t ==> r == (zero, false)
  {
    LastEnergy(Value(t, file, h), zero)
  }

  /**
   * The records of a run inserted under the path of its log are found under
   * the name of the field file of the same run, when the log's directory
   * does not itself hold the log pattern's leading word.
   */
  lemma FoundByFieldFile<F>(t: Table<F>, logDir: string, d: FileData, evals: seq<Record<F>>, h: int -> bv64, zero: F)
    requires Readable(d) && NoLogWord(logDir)
    ensures Value(Insert(t, logDir + "/" + StdoutName(d), evals, h), TecName(d), h) == evals
    ensures LookupLastEnergy(Insert(t, logDir + "/" + StdoutName(d), evals, h), TecName(d), h, zero) == LastEnergy(evals, zero)
  {
    LogKeyInDir(logDir, d, h);
    LogAndFieldShareKey(d, h);
  }
}
