/**
 * The Tecplot FEPOINT/TETRAHEDRON reader of src/TecplotLoader.cpp: `header`
 * and the two `load` overloads.
 *
 * A load is a fold of one step function over the lines of the file. The step
 * runs the state machine of the source (`loaderStatus`), collecting vertex
 * coordinates, connectivity indices and field components in three flat
 * buffers; the first line no state accepts ends the load with a parse error
 * carrying the call-site code. After the last line the buffer sizes are
 * checked against the counts of the last zone header, and only then are the
 * buffers cut into the output arrays.
 *
 * Floating-point values are opaque (`F`): the loader only moves them.
 */
module Tecplot {
  import opened Results
  import opened Decimal
  import opened Grammar
  import opened Simplex
  import Streams

  /** `loaderStatus`. */
  datatype State = Start | Zone1 | Fem1 | Zone2 | Fem2 | ZoneAndFem

  /** `Loader::SourceFileIndexing`: whether the file counts vertices from zero or from one. */
  datatype Indexing = ZeroIndexing | OneIndexing

  /** The two `load` overloads: all zones, or a single fused-header zone. */
  datatype Mode = Multi | Single

  /**
   * The exceptions a load or a header scan ends with. `OutOfRange` is the
   * `std::out_of_range` of a checked vector access, not one of the loader's
   * own exception classes.
   */
  datatype LoadError =
    | FileAccess
    | VertexMismatch
    | FieldMismatch
    | ElementMismatch
    | HeaderNotFound
    | Parse(info: string)
    | OutOfRange
  {
    /** `what()` of the loader's exception classes. */
    function What(): (r: string)
      requires !OutOfRange?
      // a parse failure reports its call-site code alone, never the composed message
      ensures Parse? ==> r == info
      ensures !Parse? ==> |r| > 0
    {
      match this
      case FileAccess => "Could not open tecplot file."
      case VertexMismatch => "No. of vertices does not match header info in file."
      case FieldMismatch => "No. of field points does not match header/zone info in file."
      case ElementMismatch => "No. of elements does not match header info in file."
      case HeaderNotFound => "Tecplot header information not found."
      case Parse(info) => info
    }
  }

  /** What a load has collected so far. */
  datatype Acc<F> = Acc(
    state: State,
    nvert: nat,
    nelem: nat,
    nzone: nat,
    vcl: seq<F>,
    til: seq<uint>,
    fld: seq<F>)

  function Init<F>(): Acc<F> {
    Acc(Start, 0, 0, 0, [], [], [])
  }

  /** The largest `unsigned int`. */
  const UintMax: uint := 0xFFFF_FFFF

  /** `n - 1` in `unsigned int` arithmetic. */
  function Pred(n: uint): (r: uint)
    ensures n > 0 ==> r as int == n as int - 1
    ensures n == 0 ==> r == UintMax
  {
    ((n as int - 1 + 0x1_0000_0000) % 0x1_0000_0000) as uint
  }

  /** The four indices of a connectivity row as they are pushed, moved to zero-based counting. */
  function Indices(ix: Indexing, c: Connect4): (r: seq<uint>)
    ensures |r| == 4
    ensures ix == ZeroIndexing ==> r == c.Items()
    ensures ix == OneIndexing ==> forall j :: 0 <= j < 4 ==> r[j] == Pred(c.Items()[j])
  {
    match ix
    case ZeroIndexing => [c.n0, c.n1, c.n2, c.n3]
    case OneIndexing => [Pred(c.n0), Pred(c.n1), Pred(c.n2), Pred(c.n3)]
  }

  /** Every index a one-based file is allowed to hold comes out one lower; an index 0 wraps. */
  lemma OneIndexingZeroWraps()
    ensures Indices(OneIndexing, Connect4(0, 1, 2, 3)) == [UintMax, 0, 1, 2]
  {
  }

  function Components<F>(v: Vec3<F>): (r: seq<F>)
    ensures |r| == 3
  {
    [v.x, v.y, v.z]
  }

  /** A zone header seen in `Start`, `Fem1` or `Fem2`: its counts replace the old ones. */
  function NewZone<F>(acc: Acc<F>, next: State, counts: (nat, nat)): Acc<F> {
    acc.(state := next, nvert := counts.0, nelem := counts.1, nzone := acc.nzone + 1)
  }

  /** What each pattern of the loader makes of one line. */
  datatype Seen<F> = Seen(
    vars: bool,
    title: bool,
    zone: Option<(nat, nat)>,
    fem: bool,
    fused: Option<(nat, nat)>,
    six: Option<(Vec3<F>, Vec3<F>)>,
    three: Option<Vec3<F>>,
    tet: Option<Connect4>)

  function Look<F>(rows: FloatRows<F>, line: string): Seen<F> {
    Seen(VarsLine(line), TitleLine(line), ZoneLine(line), FemLine(line), ZoneAndFemLine(line),
         rows.six(line), rows.three(line), TetLine(line))
  }

  /**
   * One non-empty line of the multi-zone `load`. The patterns are tried in
   * the order of the source, and the first one that matches decides.
   */
  function MultiOn<F>(ix: Indexing, acc: Acc<F>, seen: Seen<F>): (r: Result<Acc<F>, LoadError>)
    ensures r.Failure? ==> r.error == Parse(Code(Multi, acc.state))
    ensures Inv(Multi, acc) && r.Success? ==> Inv(Multi, r.value)
    ensures r.Success? ==> acc.vcl <= r.value.vcl && acc.fld <= r.value.fld && acc.til <= r.value.til
  {
    match acc.state
    case Start =>
      if seen.vars || seen.title then Success(acc)
      else if seen.zone.Some? then Success(NewZone(acc, Zone1, seen.zone.value))
      else Failure(Parse("218"))
    case Zone1 =>
      if seen.fem then Success(acc.(state := Fem1)) else Failure(Parse("228"))
    case Fem1 =>
      if seen.six.Some? then
        var (v, f) := seen.six.value;
        Success(acc.(vcl := acc.vcl + Components(v), fld := acc.fld + Components(f)))
      else if seen.tet.Some? then Success(acc.(til := acc.til + Indices(ix, seen.tet.value)))
      else if seen.zone.Some? then Success(NewZone(acc, Zone2, seen.zone.value))
      else Failure(Parse("268"))
    case Zone2 =>
      if seen.fem then Success(acc.(state := Fem2)) else Failure(Parse("278"))
    case Fem2 =>
      if seen.three.Some? then Success(acc.(fld := acc.fld + Components(seen.three.value)))
      else if seen.zone.Some? then Success(NewZone(acc, Zone2, seen.zone.value))
      else Failure(Parse("294"))
    case ZoneAndFem => Failure(Parse("300"))
  }

  /**
   * One non-empty line of the single-zone `load`: only the fused header opens
   * the zone, and the zone holds vertex-and-field rows and connectivity rows.
   */
  function SingleOn<F>(ix: Indexing, acc: Acc<F>, seen: Seen<F>): (r: Result<Acc<F>, LoadError>)
    ensures r.Failure? ==> r.error == Parse(Code(Single, acc.state))
    ensures Inv(Single, acc) && r.Success? ==> Inv(Single, r.value)
    ensures r.Success? ==> acc.vcl <= r.value.vcl && acc.fld <= r.value.fld && acc.til <= r.value.til
  {
    match acc.state
    case Start =>
      if seen.vars || seen.title then Success(acc)
      else if seen.fused.Some? then
        var (n, e) := seen.fused.value;
        Success(acc.(state := Fem1, nvert := n, nelem := e))
      else Failure(Parse("218"))
    case Fem1 =>
      if seen.six.Some? then
        var (v, f) := seen.six.value;
        Success(acc.(vcl := acc.vcl + Components(v), fld := acc.fld + Components(f)))
      else if seen.tet.Some? then Success(acc.(til := acc.til + Indices(ix, seen.tet.value)))
      else Failure(Parse("268"))
    case _ => Failure(Parse("300"))
  }

  /** The call-site code of the parse error each state throws on a line it does not accept. */
  function Code(mode: Mode, s: State): string {
    match (mode, s)
    case (Multi, Start) => "218"
    case (Multi, Zone1) => "228"
    case (Multi, Fem1) => "268"
    case (Multi, Zone2) => "278"
    case (Multi, Fem2) => "294"
    case (Single, Start) => "218"
    case (Single, Fem1) => "268"
    case _ => "300"
  }

  /** The codes a load can actually end with: `ZONEANDFEM` and the default branch are never reached. */
  function ReachableCodes(mode: Mode): set<string> {
    match mode
    case Multi => {"218", "228", "268", "278", "294"}
    case Single => {"218", "268"}
  }

  /**
   * What holds of the collected state between any two lines:
   *  - `ZONEANDFEM` is never entered, and the single-zone load only uses `START` and `FEM1`;
   *  - the buffers hold whole rows: multiples of three values and of four indices;
   *  - before the element-type line of the first zone nothing has been collected;
   *  - the multi-zone load counts one zone in the first zone's states and two or more in the
   *    later zones' states, which only add field components;
   *  - the vertex and field buffers grow together in the first zone.
   */
  predicate Inv<F>(mode: Mode, acc: Acc<F>) {
    && acc.state != ZoneAndFem
    && |acc.vcl| % 3 == 0 && |acc.fld| % 3 == 0 && |acc.til| % 4 == 0
    && (acc.state == Start ==> acc.nvert == 0 && acc.nelem == 0)
    && (acc.state == Start || acc.state == Zone1 ==> acc.vcl == [] && acc.fld == [] && acc.til == [])
    && match mode
       case Single =>
         (acc.state == Start || acc.state == Fem1) && |acc.vcl| == |acc.fld| && acc.nzone == 0
       case Multi =>
         && (acc.state == Start <==> acc.nzone == 0)
         && (acc.state == Zone1 || acc.state == Fem1 ==> acc.nzone == 1 && |acc.vcl| == |acc.fld|)
         && (acc.state == Zone2 || acc.state == Fem2 ==> acc.nzone >= 2 && |acc.vcl| <= |acc.fld|)
  }

  function Step<F>(mode: Mode, rows: FloatRows<F>, ix: Indexing, acc: Acc<F>, line: string): (r: Result<Acc<F>, LoadError>)
    // an empty line is skipped in every state
    ensures line == "" ==> r == Success(acc)
    // a line the current state does not accept ends the load with that state's code
    ensures r.Failure? ==> r.error == Parse(Code(mode, acc.state))
    // the collected state stays well formed
    ensures Inv(mode, acc) && r.Success? ==> Inv(mode, r.value)
    // buffers only grow
    ensures r.Success? ==> acc.vcl <= r.value.vcl && acc.fld <= r.value.fld && acc.til <= r.value.til
  {
    if line == "" then Success(acc)
    else
      match mode
      case Multi => MultiOn(ix, acc, Look(rows, line))
      case Single => SingleOn(ix, acc, Look(rows, line))
  }

  /** The fold of `Step` over the lines; the first failing line ends it. */
  function Run<F>(mode: Mode, rows: FloatRows<F>, ix: Indexing, acc: Acc<F>, lines: seq<string>): (r: Result<Acc<F>, LoadError>)
    // from a well-formed state the load ends well formed, or with the code of a reachable state
    ensures Inv(mode, acc) && r.Success? ==> Inv(mode, r.value)
    ensures Inv(mode, acc) && r.Failure? ==> r.error.Parse? && r.error.info in ReachableCodes(mode)
    decreases |lines|
  {
    if lines == [] then Success(acc)
    else
      var next :- Step(mode, rows, ix, acc, lines[0]);
      Run(mode, rows, ix, next, lines[1..])
  }

  lemma InitInv<F>(mode: Mode)
    ensures Inv(mode, Init<F>())
  {
  }

  /** Lines that are not empty, in order. */
  function NonBlank(lines: seq<string>): (r: seq<string>)
    ensures forall i :: 0 <= i < |r| ==> r[i] != ""
    ensures |r| <= |lines|
  {
    if lines == [] then []
    else if lines[0] == "" then NonBlank(lines[1..])
    else [lines[0]] + NonBlank(lines[1..])
  }

  /** Empty lines anywhere in the file change nothing about the load. */
  lemma {:induction false} RunSkipsBlankLines<F>(mode: Mode, rows: FloatRows<F>, ix: Indexing, acc: Acc<F>, lines: seq<string>)
    ensures Run(mode, rows, ix, acc, lines) == Run(mode, rows, ix, acc, NonBlank(lines))
    decreases |lines|
  {
    if lines != [] {
      RunSkipsBlankLines(mode, rows, ix, acc, lines[1..]);
      if lines[0] != "" {
        var r := Step(mode, rows, ix, acc, lines[0]);
        if r.Success? {
          RunSkipsBlankLines(mode, rows, ix, r.value, lines[1..]);
        }
        assert ([lines[0]] + NonBlank(lines[1..]))[1..] == NonBlank(lines[1..]);
      }
    }
  }

  // ---------------------------------------------------------------------------
  // After the last line: the count checks and the reshaping
  // ---------------------------------------------------------------------------

  /** The number of field components the header promises: one field per zone, or just the one. */
  function FieldCount<F>(mode: Mode, acc: Acc<F>): nat {
    match mode
    case Multi => 3 * acc.nvert * acc.nzone
    case Single => 3 * acc.nvert
  }

  /**
   * The three count checks, in the order of the source: vertices, then field
   * components, then connectivity indices. The first one that fails decides.
   */
  function Checked<F>(mode: Mode, acc: Acc<F>): (r: Result<Acc<F>, LoadError>)
    ensures r.Success? <==>
      |acc.vcl| == 3 * acc.nvert && |acc.fld| == FieldCount(mode, acc) && |acc.til| == 4 * acc.nelem
    ensures r.Success? ==> r.value == acc
    ensures r == Failure(VertexMismatch) <==> |acc.vcl| != 3 * acc.nvert
    ensures r == Failure(FieldMismatch) <==>
      |acc.vcl| == 3 * acc.nvert && |acc.fld| != FieldCount(mode, acc)
    ensures r == Failure(ElementMismatch) <==>
      |acc.vcl| == 3 * acc.nvert && |acc.fld| == FieldCount(mode, acc) && |acc.til| != 4 * acc.nelem
  {
    if |acc.vcl| != 3 * acc.nvert then Failure(VertexMismatch)
    else if |acc.fld| != FieldCount(mode, acc) then Failure(FieldMismatch)
    else if |acc.til| != 4 * acc.nelem then Failure(ElementMismatch)
    else Success(acc)
  }

  /** Consecutive triples of a flat buffer as vectors. */
  function Group3<F>(xs: seq<F>): (r: seq<Vec3<F>>)
    requires |xs| % 3 == 0
    ensures 3 * |r| == |xs|
    ensures forall i :: 0 <= i < |r| ==> r[i] == Vec3(xs[3 * i], xs[3 * i + 1], xs[3 * i + 2])
    decreases |xs|
  {
    if xs == [] then []
    else
      var rest := Group3(xs[3..]);
      var r := [Vec3(xs[0], xs[1], xs[2])] + rest;
      assert forall i :: 1 <= i < |r| ==> r[i] == rest[i - 1];
      r
  }

  /** The components of vectors, in order. */
  function Flatten3<F>(vs: seq<Vec3<F>>): (r: seq<F>)
    ensures |r| == 3 * |vs|
    decreases |vs|
  {
    if vs == [] then [] else Components(vs[0]) + Flatten3(vs[1..])
  }

  /** Grouping a flat buffer into triples loses nothing. */
  lemma {:induction false} FlattenGroup3<F>(xs: seq<F>)
    requires |xs| % 3 == 0
    ensures Flatten3(Group3(xs)) == xs
    decreases |xs|
  {
    if xs != [] {
      FlattenGroup3(xs[3..]);
      var g := Group3(xs);
      assert g[1..] == Group3(xs[3..]);
      assert xs == xs[..3] + xs[3..];
    }
  }

  /** And triples flattened and regrouped are the same triples. */
  lemma {:induction false} GroupFlatten3<F>(vs: seq<Vec3<F>>)
    ensures Group3(Flatten3(vs)) == vs
    decreases |vs|
  {
    if vs != [] {
      GroupFlatten3(vs[1..]);
      var f := Flatten3(vs);
      assert f[3..] == Flatten3(vs[1..]);
    }
  }

  /** Consecutive quadruples of the index buffer as tetrahedra. */
  function Group4(xs: seq<uint>): (r: seq<Connect4>)
    requires |xs| % 4 == 0
    ensures 4 * |r| == |xs|
    ensures forall i :: 0 <= i < |r| ==> r[i] == Connect4(xs[4 * i], xs[4 * i + 1], xs[4 * i + 2], xs[4 * i + 3])
    decreases |xs|
  {
    if xs == [] then []
    else
      var rest := Group4(xs[4..]);
      var r := [Connect4(xs[0], xs[1], xs[2], xs[3])] + rest;
      assert forall i :: 1 <= i < |r| ==> r[i] == rest[i - 1];
      r
  }

  /** The indices of tetrahedra, in order. */
  function Flatten4(cs: seq<Connect4>): (r: seq<uint>)
    ensures |r| == 4 * |cs|
    decreases |cs|
  {
    if cs == [] then [] else cs[0].Items() + Flatten4(cs[1..])
  }

  /** Grouping the index buffer into tetrahedra loses nothing. */
  lemma {:induction false} FlattenGroup4(xs: seq<uint>)
    requires |xs| % 4 == 0
    ensures Flatten4(Group4(xs)) == xs
    decreases |xs|
  {
    if xs != [] {
      FlattenGroup4(xs[4..]);
      var g := Group4(xs);
      assert g[1..] == Group4(xs[4..]);
      assert xs == xs[..4] + xs[4..];
    }
  }

  /** The field buffer cut into one field of `nvert` vectors per zone. */
  function Fields<F>(fld: seq<F>, nvert: nat, nzone: nat): (r: seq<seq<Vec3<F>>>)
    requires |fld| == 3 * nvert * nzone
    ensures |r| == nzone
    ensures forall k :: 0 <= k < nzone ==> |r[k]| == nvert
  {
    seq(nzone, k requires 0 <= k < nzone => ZoneField(fld, nvert, nzone, k))
  }

  /** Zone `k`'s field: its `3·nvert` components, grouped into vectors. */
  function ZoneField<F>(fld: seq<F>, nvert: nat, nzone: nat, k: nat): (r: seq<Vec3<F>>)
    requires |fld| == 3 * nvert * nzone && k < nzone
    ensures |r| == nvert
  {
    ZoneSlice(nvert, nzone, k);
    var lo := 3 * nvert * k;
    Group3(fld[lo .. lo + 3 * nvert])
  }

  /** Zone `k`'s components lie within the buffer. */
  lemma ZoneSlice(nvert: nat, nzone: nat, k: nat)
    requires k < nzone
    ensures 3 * nvert * k + 3 * nvert <= 3 * nvert * nzone
  {
    var m := 3 * nvert;
    assert m * k + m == m * (k + 1);
    assert m * (k + 1) <= m * nzone;
  }

  /** The `i`th vector of zone `k` comes from components `3·nvert·k + 3·i` onwards of the buffer. */
  lemma FieldsIndex<F>(fld: seq<F>, nvert: nat, nzone: nat, k: nat, i: nat)
    requires |fld| == 3 * nvert * nzone
    requires k < nzone && i < nvert
    ensures 3 * nvert * k + 3 * i + 2 < |fld|
    ensures Fields(fld, nvert, nzone)[k][i] ==
      Vec3(fld[3 * nvert * k + 3 * i], fld[3 * nvert * k + 3 * i + 1], fld[3 * nvert * k + 3 * i + 2])
  {
    ZoneSlice(nvert, nzone, k);
    var lo := 3 * nvert * k;
    var slice := fld[lo .. lo + 3 * nvert];
    assert Fields(fld, nvert, nzone)[k] == ZoneField(fld, nvert, nzone, k) == Group3(slice);
    assert slice[3 * i] == fld[lo + 3 * i];
  }

  /** The output of the multi-zone `load`: vertices, tetrahedra and one field per zone. */
  datatype Zones<F> = Zones(vcoord: seq<Vec3<F>>, eindex: seq<Connect4>, fields: seq<seq<Vec3<F>>>)

  /** The output of the single-zone `load`: vertices, tetrahedra and the field. */
  datatype Zone<F> = Zone(vcoord: seq<Vec3<F>>, eindex: seq<Connect4>, field: seq<Vec3<F>>)

  /** Cutting the checked buffers of the multi-zone load into its outputs. */
  function Reshape<F>(acc: Acc<F>): (r: Zones<F>)
    requires |acc.vcl| == 3 * acc.nvert && |acc.fld| == 3 * acc.nvert * acc.nzone
    requires |acc.til| == 4 * acc.nelem
    ensures |r.vcoord| == acc.nvert && |r.eindex| == acc.nelem && |r.fields| == acc.nzone
    ensures forall k :: 0 <= k < acc.nzone ==> |r.fields[k]| == acc.nvert
    ensures Flatten3(r.vcoord) == acc.vcl && Flatten4(r.eindex) == acc.til
  {
    FlattenGroup3(acc.vcl);
    FlattenGroup4(acc.til);
    Zones(Group3(acc.vcl), Group4(acc.til), Fields(acc.fld, acc.nvert, acc.nzone))
  }

  /** `std::vector::resize`: cut to `n` entries, or pad with `fill`. */
  function Resize<T>(xs: seq<T>, n: nat, fill: T): (r: seq<T>)
    ensures |r| == n
    ensures forall i :: 0 <= i < n ==> r[i] == if i < |xs| then xs[i] else fill
  {
    if n <= |xs| then xs[..n] else xs + seq(n - |xs|, _ => fill)
  }

  /**
   * The reshaping as the source writes it. The loop that should size every
   * zone's field resizes copies of them, so the fields keep the lengths the
   * caller's vector gave them, and a new zone's field is empty. Filling
   * vector `i` of a field shorter than `nvert` then throws.
   */
  function ReshapeAsWritten<F>(acc: Acc<F>, fieldsInit: seq<seq<Vec3<F>>>): (r: Result<Zones<F>, LoadError>)
    requires |acc.vcl| == 3 * acc.nvert && |acc.fld| == 3 * acc.nvert * acc.nzone
    requires |acc.til| == 4 * acc.nelem
    ensures r.Failure? <==>
      exists k :: 0 <= k < acc.nzone && |Resize(fieldsInit, acc.nzone, [])[k]| < acc.nvert
    ensures r.Failure? ==> r.error == OutOfRange
    // when it does not throw, the mesh is the intended one and each field starts with the intended values
    ensures r.Success? ==>
      var z := Reshape(acc);
      r.value.vcoord == z.vcoord && r.value.eindex == z.eindex && |r.value.fields| == acc.nzone &&
      forall k :: 0 <= k < acc.nzone ==>
        acc.nvert <= |r.value.fields[k]| && r.value.fields[k][..acc.nvert] == z.fields[k]
  {
    var outer := Resize(fieldsInit, acc.nzone, []);
    if exists k :: 0 <= k < acc.nzone && |outer[k]| < acc.nvert then Failure(OutOfRange)
    else
      var fields := Fields(acc.fld, acc.nvert, acc.nzone);
      Success(Zones(Group3(acc.vcl), Group4(acc.til),
        seq(acc.nzone, k requires 0 <= k < acc.nzone => fields[k] + outer[k][acc.nvert..])))
  }

  /** Cutting the checked buffers of the single-zone load into its outputs. */
  function ReshapeSingle<F>(acc: Acc<F>): (r: Zone<F>)
    requires |acc.vcl| == 3 * acc.nvert && |acc.fld| == 3 * acc.nvert
    requires |acc.til| == 4 * acc.nelem
    ensures |r.vcoord| == acc.nvert && |r.eindex| == acc.nelem && |r.field| == acc.nvert
    ensures Flatten3(r.vcoord) == acc.vcl && Flatten3(r.field) == acc.fld && Flatten4(r.eindex) == acc.til
  {
    FlattenGroup3(acc.vcl);
    FlattenGroup3(acc.fld);
    FlattenGroup4(acc.til);
    Zone(Group3(acc.vcl), Group4(acc.til), Group3(acc.fld))
  }

  // ---------------------------------------------------------------------------
  // The loads and the header scan. A file is its text, or `None` when it cannot be opened.
  // ---------------------------------------------------------------------------

  /** The lines the `while (file) { getline(file, line); ... }` loop hands to its body. */
  function LinesAsRead(text: string): seq<string> {
    Streams.ReadWhileGood(Streams.Open(text), "", '\n')
  }

  /** The multi-zone `load`, reading the file line by line. */
  function LoadMulti<F>(rows: FloatRows<F>, ix: Indexing, file: Option<string>): (r: Result<Zones<F>, LoadError>)
    ensures file.None? <==> r == Failure(FileAccess)
    ensures r.Success? ==> forall k :: 0 <= k < |r.value.fields| ==> |r.value.fields[k]| == |r.value.vcoord|
  {
    match file
    case None => Failure(FileAccess)
    case Some(text) =>
      InitInv<F>(Multi);
      var acc :- Run(Multi, rows, ix, Init(), Streams.Lines(text));
      var ok :- Checked(Multi, acc);
      Success(Reshape(ok))
  }

  /** The multi-zone `load` as written: the `while (file)` loop and the reshaping of copies. */
  function LoadMultiAsWritten<F>(rows: FloatRows<F>, ix: Indexing, file: Option<string>, fieldsInit: seq<seq<Vec3<F>>>): (r: Result<Zones<F>, LoadError>)
    ensures file.None? <==> r == Failure(FileAccess)
  {
    match file
    case None => Failure(FileAccess)
    case Some(text) =>
      InitInv<F>(Multi);
      var acc :- Run(Multi, rows, ix, Init(), LinesAsRead(text));
      var ok :- Checked(Multi, acc);
      ReshapeAsWritten(ok, fieldsInit)
  }

  /** The single-zone `load`, reading the file line by line. */
  function LoadSingle<F>(rows: FloatRows<F>, ix: Indexing, file: Option<string>): (r: Result<Zone<F>, LoadError>)
    ensures file.None? <==> r == Failure(FileAccess)
    ensures r.Success? ==> |r.value.field| == |r.value.vcoord|
  {
    match file
    case None => Failure(FileAccess)
    case Some(text) => LoadSingleLines(rows, ix, Streams.Lines(text))
  }

  /** The single-zone `load` as written, with the `while (file)` loop. */
  function LoadSingleAsWritten<F>(rows: FloatRows<F>, ix: Indexing, file: Option<string>): (r: Result<Zone<F>, LoadError>)
    ensures file.None? <==> r == Failure(FileAccess)
  {
    match file
    case None => Failure(FileAccess)
    case Some(text) => LoadSingleLines(rows, ix, LinesAsRead(text))
  }

  /** The single-zone `load` of an opened file, given the lines its loop reads. */
  function LoadSingleLines<F>(rows: FloatRows<F>, ix: Indexing, lines: seq<string>): (r: Result<Zone<F>, LoadError>)
    ensures r != Failure(FileAccess)
    ensures r.Success? ==> |r.value.field| == |r.value.vcoord|
  {
    InitInv<F>(Single);
    var acc :- Run(Single, rows, ix, Init(), lines);
    var ok :- Checked(Single, acc);
    Success(ReshapeSingle(ok))
  }

  // ---------------------------------------------------------------------------
  // The header scan
  // ---------------------------------------------------------------------------

  /**
   * The counts of every line a zone recogniser accepts, in order. The
   * recogniser is a parameter so that the scan lemmas below do not depend on
   * how a header is parsed.
   */
  function HeadersBy(zone: string -> Option<(nat, nat)>, lines: seq<string>): (r: seq<(nat, nat)>)
    ensures |r| <= |lines|
    ensures r == [] <==> forall i :: 0 <= i < |lines| ==> zone(lines[i]).None?
  {
    if lines == [] then []
    else
      var rest := HeadersBy(zone, lines[1..]);
      assert forall i :: 1 <= i < |lines| ==> lines[i] == lines[1..][i - 1];
      match zone(lines[0])
      case Some(h) => [h] + rest
      case None => rest
  }

  /** The first line contributes its counts, if any, ahead of the rest. */
  lemma HeadersByCons(zone: string -> Option<(nat, nat)>, lines: seq<string>)
    requires lines != []
    ensures HeadersBy(zone, lines) ==
      match zone(lines[0])
      case Some(h) => [h] + HeadersBy(zone, lines[1..])
      case None => HeadersBy(zone, lines[1..])
  {
  }

  /** The counts of every plain zone header among the lines, in order. */
  function ZoneHeaders(lines: seq<string>): (r: seq<(nat, nat)>)
    ensures |r| <= |lines|
    ensures r == [] <==> forall i :: 0 <= i < |lines| ==> ZoneLine(lines[i]).None?
  {
    HeadersBy(ZoneLine, lines)
  }

  lemma {:induction false} HeadersByAppend(zone: string -> Option<(nat, nat)>, a: seq<string>, b: seq<string>)
    ensures HeadersBy(zone, a + b) == HeadersBy(zone, a) + HeadersBy(zone, b)
    decreases |a|
  {
    if a == [] {
      assert a + b == b;
    } else {
      assert (a + b)[1..] == a[1..] + b;
      HeadersByAppend(zone, a[1..], b);
    }
  }

  lemma ZoneHeadersAppend(a: seq<string>, b: seq<string>)
    ensures ZoneHeaders(a + b) == ZoneHeaders(a) + ZoneHeaders(b)
  {
    HeadersByAppend(ZoneLine, a, b);
  }

  /** What `header` keeps while it reads: the zones counted so far and the counts of the last one. */
  datatype Scan = Scan(nzone: nat, last: Option<(nat, nat)>)

  /** The loop of `header`, line by line from the first: a zone line counts and overwrites the counts. */
  function ScanBy(zone: string -> Option<(nat, nat)>, lines: seq<string>): (r: Scan)
    ensures r.last.None? <==> r.nzone == 0
    ensures r.nzone <= |lines|
    decreases |lines|
  {
    if lines == [] then Scan(0, None)
    else
      var s := ScanBy(zone, lines[..|lines| - 1]);
      match zone(lines[|lines| - 1])
      case Some(h) => Scan(s.nzone + 1, Some(h))
      case None => s
  }

  /** The scan counts the accepted lines and keeps the counts of the last one. */
  lemma {:induction false} ScanCountsHeaders(zone: string -> Option<(nat, nat)>, lines: seq<string>)
    ensures ScanBy(zone, lines).nzone == |HeadersBy(zone, lines)|
    ensures ScanBy(zone, lines).last ==
      if HeadersBy(zone, lines) == [] then None else Some(Last(HeadersBy(zone, lines)))
    decreases |lines|
  {
    if lines != [] {
      var init := lines[..|lines| - 1];
      var l := lines[|lines| - 1];
      ScanCountsHeaders(zone, init);
      assert lines == init + [l];
      HeadersByAppend(zone, init, [l]);
      assert [l][1..] == [];
    }
  }

  /** The last element of a non-empty sequence. */
  function Last<T>(xs: seq<T>): T
    requires xs != []
  {
    xs[|xs| - 1]
  }

  /** `header` over the given lines: zone count and the last zone's counts, or no header at all. */
  function HeaderOf(lines: seq<string>): (r: Result<(nat, nat, nat), LoadError>)
    ensures r == Failure(HeaderNotFound) <==> ZoneHeaders(lines) == []
    ensures r.Success? ==>
      r.value.2 == |ZoneHeaders(lines)| && (r.value.0, r.value.1) == Last(ZoneHeaders(lines))
  {
    ScanCountsHeaders(ZoneLine, lines);
    var s := ScanBy(ZoneLine, lines);
    match s.last
    case None => Failure(HeaderNotFound)
    case Some(h) => Success((h.0, h.1, s.nzone))
  }

  /** `header`, reading each line once. The result is `(nvert, nelem, nzone)`. */
  function Header(file: Option<string>): (r: Result<(nat, nat, nat), LoadError>)
    ensures file.None? <==> r == Failure(FileAccess)
    ensures file.Some? ==>
      (r == Failure(HeaderNotFound) <==> ZoneHeaders(Streams.Lines(file.value)) == [])
    ensures r.Success? ==>
      var hs := ZoneHeaders(Streams.Lines(file.value));
      r.value.2 == |hs| && (r.value.0, r.value.1) == Last(hs)
  {
    match file
    case None => Failure(FileAccess)
    case Some(text) => HeaderOf(Streams.Lines(text))
  }

  /** `header` as written, with the `while (file)` loop. */
  function HeaderAsWritten(file: Option<string>): (r: Result<(nat, nat, nat), LoadError>)
    ensures file.None? <==> r == Failure(FileAccess)
    ensures file.Some? ==>
      (r == Failure(HeaderNotFound) <==> ZoneHeaders(LinesAsRead(file.value)) == [])
    ensures r.Success? ==>
      var hs := ZoneHeaders(LinesAsRead(file.value));
      r.value.2 == |hs| && (r.value.0, r.value.1) == Last(hs)
  {
    match file
    case None => Failure(FileAccess)
    case Some(text) => HeaderOf(LinesAsRead(text))
  }

  // ---------------------------------------------------------------------------
  // The load and the header agree
  // ---------------------------------------------------------------------------

  /** Neither row matcher takes a plain zone header for a row of numbers. */
  ghost predicate RowsRejectZones<F>(rows: FloatRows<F>) {
    forall line :: ZoneLine(line).Some? ==> rows.six(line).None? && rows.three(line).None?
  }

  /** Matchers that follow the two row patterns never take a plain zone header for a row. */
  lemma FollowsPatternsRejectZones<F>(rows: FloatRows<F>)
    requires FollowsPatterns(rows)
    ensures RowsRejectZones(rows)
  {
    forall line | ZoneLine(line).Some?
      ensures rows.six(line).None? && rows.three(line).None?
    {
      ZoneLineNotRow(line, 6);
      ZoneLineNotRow(line, 3);
    }
  }

  /** In the multi-zone load a zone header always opens a zone, and only a zone header changes the counts. */
  lemma StepMultiCounts<F>(rows: FloatRows<F>, ix: Indexing, acc: Acc<F>, line: string)
    requires RowsRejectZones(rows)
    requires Step(Multi, rows, ix, acc, line).Success?
    ensures var r := Step(Multi, rows, ix, acc, line).value;
      match ZoneLine(line)
      case Some(h) => r.nzone == acc.nzone + 1 && (r.nvert, r.nelem) == h
      case None => r.nzone == acc.nzone && r.nvert == acc.nvert && r.nelem == acc.nelem
  {
    if line != "" {
      var seen := Look(rows, line);
      if seen.zone.Some? {
        ZoneIsNothingElse(line);
      }
      MultiOnCounts(ix, acc, seen);
    }
  }

  /** The same on what the patterns saw: only a line seen as a zone header, and nothing else, opens a zone. */
  lemma MultiOnCounts<F>(ix: Indexing, acc: Acc<F>, seen: Seen<F>)
    requires seen.zone.Some? ==>
      !seen.vars && !seen.title && !seen.fem && seen.six.None? && seen.three.None? && seen.tet.None?
    requires MultiOn(ix, acc, seen).Success?
    ensures var r := MultiOn(ix, acc, seen).value;
      match seen.zone
      case Some(h) => r.nzone == acc.nzone + 1 && (r.nvert, r.nelem) == h
      case None => r.nzone == acc.nzone && r.nvert == acc.nvert && r.nelem == acc.nelem
  {
  }

  /**
   * Over a whole run of the multi-zone load, the zone count grows by the number
   * of zone headers, and the counts are those of the last header.
   */
  lemma {:induction false} RunCountsZones<F>(rows: FloatRows<F>, ix: Indexing, acc: Acc<F>, lines: seq<string>)
    requires RowsRejectZones(rows)
    requires Run(Multi, rows, ix, acc, lines).Success?
    ensures var r := Run(Multi, rows, ix, acc, lines).value;
      var hs := ZoneHeaders(lines);
      r.nzone == acc.nzone + |hs| &&
      (r.nvert, r.nelem) == if hs == [] then (acc.nvert, acc.nelem) else Last(hs)
    decreases |lines|
  {
    if lines != [] {
      var next := Step(Multi, rows, ix, acc, lines[0]);
      assert next.Success?;
      assert Run(Multi, rows, ix, acc, lines) == Run(Multi, rows, ix, next.value, lines[1..]);
      StepMultiCounts(rows, ix, acc, lines[0]);
      RunCountsZones(rows, ix, next.value, lines[1..]);
      HeadersByCons(ZoneLine, lines);
    }
  }

  /**
   * `header` reports what a successful multi-zone load read: the vertex and
   * element counts and the number of zones. A file without zones loads as an
   * empty mesh, but has no header.
   */
  lemma LoadMultiMatchesHeader<F>(rows: FloatRows<F>, ix: Indexing, text: string)
    requires RowsRejectZones(rows)
    requires LoadMulti(rows, ix, Some(text)).Success?
    ensures var z := LoadMulti(rows, ix, Some(text)).value;
      Header(Some(text)) ==
        if |z.fields| == 0 then Failure(HeaderNotFound)
        else Success((|z.vcoord|, |z.eindex|, |z.fields|))
  {
    InitInv<F>(Multi);
    RunCountsZones(rows, ix, Init(), Streams.Lines(text));
  }

  // ---------------------------------------------------------------------------
  // What the `while (file)` loop and the copied fields change
  // ---------------------------------------------------------------------------

  /** A text that is empty or ends with a newline is read as its lines plus one empty line. */
  lemma LinesAsReadTerminated(text: string)
    requires text == "" || Streams.EndsWith(text, '\n')
    ensures LinesAsRead(text) == Streams.Lines(text) + [""]
  {
    Streams.GoodLoopRepeatsLast(text, "", '\n');
  }

  /** A non-empty text without a newline is one line, which the `while (file)` loop reads twice. */
  lemma OneLineReadTwice(text: string)
    requires text != "" && '\n' !in text
    ensures Streams.Lines(text) == [text]
    ensures LinesAsRead(text) == [text, text]
  {
    Streams.IndexOfAbsent(text, '\n');
    Streams.GoodLoopRepeatsLast(text, "", '\n');
  }

  /** A trailing empty line changes no load. */
  lemma {:induction false} RunAppendBlank<F>(mode: Mode, rows: FloatRows<F>, ix: Indexing, acc: Acc<F>, lines: seq<string>)
    ensures Run(mode, rows, ix, acc, lines + [""]) == Run(mode, rows, ix, acc, lines)
    decreases |lines|
  {
    if lines == [] {
      assert lines + [""] == [""];
      assert [""][1..] == [];
    } else {
      assert (lines + [""])[1..] == lines[1..] + [""];
      var next := Step(mode, rows, ix, acc, lines[0]);
      if next.Success? {
        RunAppendBlank(mode, rows, ix, next.value, lines[1..]);
      }
    }
  }

  /** For a terminated text, the `header` as written finds what the corrected one finds. */
  lemma HeaderAgreesWhenTerminated(text: string)
    requires text == "" || Streams.EndsWith(text, '\n')
    ensures HeaderAsWritten(Some(text)) == Header(Some(text))
  {
    LinesAsReadTerminated(text);
    ZoneHeadersAppend(Streams.Lines(text), [""]);
    assert ZoneHeaders([""]) == [];
  }

  /** For a terminated text, the single-zone `load` as written loads what the corrected one loads. */
  lemma LoadSingleAgreesWhenTerminated<F>(rows: FloatRows<F>, ix: Indexing, text: string)
    requires text == "" || Streams.EndsWith(text, '\n')
    ensures LoadSingleAsWritten(rows, ix, Some(text)) == LoadSingle(rows, ix, Some(text))
  {
    var lines := Streams.Lines(text);
    LinesAsReadTerminated(text);
    RunAppendBlank(Single, rows, ix, Init(), lines);
    assert LoadSingleLines(rows, ix, lines + [""]) == LoadSingleLines(rows, ix, lines);
  }

  /** With no fields passed in, the reshaping as written throws exactly when there is something to fill. */
  lemma ReshapeAsWrittenFromEmpty<F>(acc: Acc<F>)
    requires |acc.vcl| == 3 * acc.nvert && |acc.fld| == 3 * acc.nvert * acc.nzone
    requires |acc.til| == 4 * acc.nelem
    ensures ReshapeAsWritten(acc, []).Failure? <==> acc.nvert > 0 && acc.nzone > 0
  {
    if acc.nvert > 0 && acc.nzone > 0 {
      assert |Resize<seq<Vec3<F>>>([], acc.nzone, [])[0]| < acc.nvert;
    }
  }

  /**
   * A terminated file that the multi-zone `load` reads into at least one zone
   * with at least one vertex makes the `load` as written throw, when the
   * caller passes an empty field vector.
   */
  lemma LoadMultiAsWrittenThrows<F>(rows: FloatRows<F>, ix: Indexing, text: string)
    requires text == "" || Streams.EndsWith(text, '\n')
    requires LoadMulti(rows, ix, Some(text)).Success?
    requires |LoadMulti(rows, ix, Some(text)).value.vcoord| > 0
    requires |LoadMulti(rows, ix, Some(text)).value.fields| > 0
    ensures LoadMultiAsWritten(rows, ix, Some(text), []) == Failure(OutOfRange)
  {
    InitInv<F>(Multi);
    LinesAsReadTerminated(text);
    RunAppendBlank(Multi, rows, ix, Init(), Streams.Lines(text));
    var acc := Run(Multi, rows, ix, Init(), Streams.Lines(text)).value;
    ReshapeAsWrittenFromEmpty(acc);
  }

  lemma ZoneTextOneLine(title: string, n: nat, e: nat)
    requires '\n' !in title
    ensures ZoneText(title, n, e) != "" && '\n' !in ZoneText(title, n, e)
  {
    var z := ZoneText(title, n, e);
    var rn, re := Render(n), Render(e);
    assert z == "ZONE T=\"" + title + "\"" + " N=" + rn + ", E=" + re;
    assert '\n' !in rn && '\n' !in re by {
      assert forall i :: 0 <= i < |rn| ==> IsDigit(rn[i]);
      assert forall i :: 0 <= i < |re| ==> IsDigit(re[i]);
    }
  }

  /**
   * One zone header without a final newline: the corrected `header` counts one
   * zone, the one as written counts it twice.
   */
  lemma HeaderCountsUnterminatedTwice(title: string, n: nat, e: nat)
    requires |title| > 0 && '\n' !in title && n <= ULongMax && e <= ULongMax
    ensures Header(Some(ZoneText(title, n, e))) == Success((n, e, 1))
    ensures HeaderAsWritten(Some(ZoneText(title, n, e))) == Success((n, e, 2))
  {
    var z := ZoneText(title, n, e);
    ZoneTextOneLine(title, n, e);
    OneLineReadTwice(z);
    ZoneRoundTrip(title, n, e);
    assert ZoneHeaders([z]) == [(n, e)];
    assert ZoneHeaders([z, z]) == [(n, e), (n, e)] by {
      assert [z, z][1..] == [z];
    }
  }

  /**
   * The same unterminated header as a whole multi-zone file: the corrected
   * `load` reads one empty zone; the one as written meets the header again
   * where it expects the element-type line, and throws the parse error "228".
   */
  lemma UnterminatedZoneFailsAsWritten<F>(rows: FloatRows<F>, ix: Indexing, title: string, fieldsInit: seq<seq<Vec3<F>>>)
    requires |title| > 0 && '\n' !in title
    ensures LoadMulti(rows, ix, Some(ZoneText(title, 0, 0))) == Success(Zones([], [], [[]]))
    ensures LoadMultiAsWritten(rows, ix, Some(ZoneText(title, 0, 0)), fieldsInit) == Failure(Parse("228"))
  {
    var z := ZoneText(title, 0, 0);
    ZoneTextOneLine(title, 0, 0);
    OneLineReadTwice(z);
    ZoneRoundTrip(title, 0, 0);
    ZoneIsNothingElse(z);
    var acc := NewZone(Init<F>(), Zone1, (0, 0));
    assert Step(Multi, rows, ix, Init(), z) == Success(acc);
    assert Run(Multi, rows, ix, Init(), [z]) == Success(acc) by {
      assert [z][1..] == [];
    }
    assert Fields<F>([], 0, 1) == [[]] by {
      assert ZoneField<F>([], 0, 1, 0) == [];
    }
    assert Run(Multi, rows, ix, Init(), [z, z]) == Failure(Parse("228")) by {
      assert [z, z][1..] == [z];
    }
  }
}
