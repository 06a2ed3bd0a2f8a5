/**
 * Line-oriented reading with `std::getline`, as the loaders and the path
 * helpers use it.
 *
 * A stream is the unread text plus its `eof` and `fail` flags. `getline`
 * first builds a sentry, which fails on a stream that is not good; in that case
 * it raises `fail` and leaves the target string as it was. Otherwise it empties
 * the target and extracts up to (and consumes) the delimiter. Reaching the end
 * of the text raises `eof`, and also `fail` when nothing was extracted.
 *
 * Two loop shapes occur in the program:
 *  - `while (getline(ss, item, d)) { ... }` (src/VectorField.cpp:57-66) sees
 *    exactly the `d`-separated tokens: `Split`.
 *  - `while (file) { getline(file, line); ... }` (src/TecplotLoader.cpp:177-179,
 *    224-226, 413-415) tests the stream before reading. It sees an extra empty
 *    line after a terminated last line and, because the failing sentry does not
 *    clear `line`, sees an unterminated last line twice.
 */
module Streams {

  /** Position of the first `d` in `s`, or `|s|` when there is none. */
  function IndexOf(s: string, d: char): (r: nat)
    ensures r <= |s|
    ensures forall j :: 0 <= j < r ==> s[j] != d
    ensures r < |s| ==> s[r] == d
  {
    if |s| == 0 then 0
    else if s[0] == d then 0
    else 1 + IndexOf(s[1..], d)
  }

  /** The `d`-free runs of `s` in order, as the `while (getline(ss, item, d))` loop collects them. */
  function Split(s: string, d: char): (r: seq<string>)
    ensures forall k :: 0 <= k < |r| ==> d !in r[k]
    ensures s == "" <==> r == []
    decreases |s|
  {
    if s == "" then []
    else
      var i := IndexOf(s, d);
      if i == |s| then [s]
      else [s[..i]] + Split(s[i + 1..], d)
  }

  /** Tokens glued back together with one `d` between neighbours. */
  function Join(toks: seq<string>, d: char): string
  {
    if |toks| == 0 then ""
    else if |toks| == 1 then toks[0]
    else toks[0] + [d] + Join(toks[1..], d)
  }

  predicate EndsWith(s: string, d: char) {
    |s| > 0 && s[|s| - 1] == d
  }

  /**
   * Splitting loses only a final delimiter: joining the tokens gives back the
   * text, short of that last `d`.
   */
  lemma {:induction false} JoinSplit(s: string, d: char)
    ensures Join(Split(s, d), d) + (if EndsWith(s, d) then [d] else []) == s
    decreases |s|
  {
    if d !in s {
      IndexOfAbsent(s, d);
      if s != "" {
        assert Split(s, d) == [s];
        assert s[|s| - 1] in s;
      }
    } else {
      var head, rest := AtFirst(s, d);
      SplitAtFirst(head, rest, d);
      JoinSplit(rest, d);
      if rest == "" {
        assert Split(rest, d) == [];
        assert s == head + [d];
      } else {
        var toks := Split(rest, d);
        var x: string := if EndsWith(rest, d) then [d] else [];
        JoinCons(head, toks, d);
        EndsWithAppend(head + [d], rest, d);
        Reassociate(head, [d], Join(toks, d), x);
        assert s == head + ([d] + rest);
      }
    }
  }

  /** A text with a delimiter in it is a delimiter-free head, the delimiter and the rest. */
  lemma AtFirst(s: string, d: char) returns (head: string, rest: string)
    requires d in s
    ensures s == head + [d] + rest && d !in head && |rest| < |s|
  {
    var i := IndexOf(s, d);
    head, rest := s[..i], s[i + 1..];
    assert s == head + [d] + rest;
  }

  /** Splitting a text at its first delimiter. */
  lemma SplitAtFirst(head: string, rest: string, d: char)
    requires d !in head
    ensures Split(head + [d] + rest, d) == [head] + Split(rest, d)
  {
    var s := head + [d] + rest;
    IndexOfAfter(head, [d] + rest, d);
    assert s == head + ([d] + rest);
    assert s[..|head|] == head && s[|head| + 1..] == rest;
  }

  lemma EndsWithAppend(a: string, b: string, d: char)
    requires b != ""
    ensures EndsWith(a + b, d) == EndsWith(b, d)
  {
    assert (a + b)[|a + b| - 1] == b[|b| - 1];
  }

  lemma Reassociate(a: string, b: string, c: string, x: string)
    ensures (a + (b + c)) + x == a + (b + (c + x))
  {
  }

  /** Joining one more leading token. */
  lemma JoinCons(head: string, toks: seq<string>, d: char)
    requires toks != []
    ensures Join([head] + toks, d) == head + ([d] + Join(toks, d))
  {
    assert ([head] + toks)[1..] == toks;
  }

  /**
   * Splitting undoes joining, for delimiter-free tokens whose last one is not
   * empty (an empty last token has no trace in the joined text).
   */
  lemma {:induction false} SplitJoin(toks: seq<string>, d: char)
    requires forall k :: 0 <= k < |toks| ==> d !in toks[k]
    requires toks != [] ==> toks[|toks| - 1] != ""
    ensures Split(Join(toks, d), d) == toks
    decreases |toks|
  {
    if |toks| == 1 {
      IndexOfAbsent(toks[0], d);
    } else if |toks| > 1 {
      var t := toks[0];
      var rest := Join(toks[1..], d);
      var s := t + ([d] + rest);
      assert Join(toks, d) == s;
      IndexOfAfter(t, [d] + rest, d);
      assert s[|t| + 1..] == rest;
      assert s[..|t|] == t;
      assert Split(s, d) == [t] + Split(rest, d);
      SplitJoin(toks[1..], d);
      assert [t] + toks[1..] == toks;
    }
  }

  lemma IndexOfAbsent(s: string, d: char)
    requires d !in s
    ensures IndexOf(s, d) == |s|
  {
  }

  /** A `d`-free prefix is skipped entirely by the search. */
  lemma {:induction false} IndexOfAfter(t: string, u: string, d: char)
    requires d !in t && |u| > 0 && u[0] == d
    ensures IndexOf(t + u, d) == |t|
    decreases |t|
  {
    if |t| > 0 {
      assert (t + u)[1..] == t[1..] + u;
      IndexOfAfter(t[1..], u, d);
    } else {
      assert t + u == u;
    }
  }

  lemma {:induction false} JoinNonEmpty(toks: seq<string>, d: char)
    requires toks != [] && toks[|toks| - 1] != ""
    ensures Join(toks, d) != ""
    decreases |toks|
  {
    if |toks| > 1 {
      assert toks[1..][|toks[1..]| - 1] == toks[|toks| - 1];
      JoinNonEmpty(toks[1..], d);
    }
  }

  // ---------------------------------------------------------------------------
  // The stream and one `getline`
  // ---------------------------------------------------------------------------

  datatype Stream = Stream(rest: string, eof: bool, fail: bool) {
    /** `operator bool` of a stream: no failure so far. */
    predicate Ok() { !fail }

    /** Work left before the stream fails for good. */
    function Fuel(): nat {
      |rest| + (if eof then 0 else 1) + (if fail then 0 else 1)
    }
  }

  /** A freshly opened stream over the text `s`. */
  function Open(s: string): Stream {
    Stream(s, false, false)
  }

  /**
   * One `getline(is, line, d)`: the new stream and the new value of `line`.
   */
  function Getline(st: Stream, line: string, d: char): (r: (Stream, string))
    // a stream that is already at its end or failed is marked failed, and the line is left alone
    ensures st.eof || st.fail ==> r == (st.(fail := true), line)
    // every call on a stream that has not failed consumes text or fails it
    ensures !st.fail ==> r.0.Fuel() < st.Fuel()
    // the line never carries the delimiter
    ensures !(st.eof || st.fail) ==> d !in r.1
  {
    if st.eof || st.fail then (st.(fail := true), line)
    else
      var i := IndexOf(st.rest, d);
      if i < |st.rest| then (Stream(st.rest[i + 1..], false, false), st.rest[..i])
      else if |st.rest| == 0 then (Stream("", true, true), "")
      else (Stream("", true, false), st.rest)
  }

  /** The lines `while (getline(is, line, d)) { ... }` hands to its body. */
  function ReadWhileExtracted(st: Stream, line: string, d: char): seq<string>
    decreases st.Fuel()
  {
    var (st', line') := Getline(st, line, d);
    if !st'.Ok() then [] else [line'] + ReadWhileExtracted(st', line', d)
  }

  /** The lines `while (is) { getline(is, line, d); ... }` hands to its body. */
  function ReadWhileGood(st: Stream, line: string, d: char): seq<string>
    decreases st.Fuel()
  {
    if !st.Ok() then []
    else
      var (st', line') := Getline(st, line, d);
      [line'] + ReadWhileGood(st', line', d)
  }

  /** The lines of a text, as the loaders mean to read them. */
  function Lines(s: string): seq<string> {
    Split(s, '\n')
  }

  /** Reading a fresh stream with the extraction-guarded loop yields exactly `Split`. */
  lemma {:induction false} ExtractedLoopSplits(s: string, line: string, d: char)
    ensures ReadWhileExtracted(Open(s), line, d) == Split(s, d)
    decreases |s|
  {
    var i := IndexOf(s, d);
    if s == "" {
    } else if i == |s| {
      var st' := Stream("", true, false);
      assert Getline(Open(s), line, d) == (st', s);
      assert Getline(st', s, d).0.fail;
    } else {
      assert Getline(Open(s), line, d) == (Open(s[i + 1..]), s[..i]);
      ExtractedLoopSplits(s[i + 1..], s[..i], d);
    }
  }

  /** The text's last piece: what follows its final delimiter. */
  function LastPiece(s: string, d: char): string
    decreases |s|
  {
    var i := IndexOf(s, d);
    if i == |s| then s else LastPiece(s[i + 1..], d)
  }

  /**
   * The `while (is)` loop sees every line, then one more: an empty one when
   * the text is empty or ends with the delimiter, and otherwise the
   * unterminated last line a second time.
   */
  lemma {:induction false} GoodLoopRepeatsLast(s: string, line: string, d: char)
    ensures ReadWhileGood(Open(s), line, d) ==
      Split(s, d) + (if s == "" || EndsWith(s, d) then [""] else [LastPiece(s, d)])
    decreases |s|
  {
    var i := IndexOf(s, d);
    if s == "" {
      var st' := Stream("", true, true);
      assert Getline(Open(s), line, d) == (st', "");
    } else if i == |s| {
      var st' := Stream("", true, false);
      assert Getline(Open(s), line, d) == (st', s);
      assert Getline(st', s, d) == (st'.(fail := true), s);
      assert !EndsWith(s, d);
    } else {
      var rest := s[i + 1..];
      assert Getline(Open(s), line, d) == (Open(rest), s[..i]);
      GoodLoopRepeatsLast(rest, s[..i], d);
      if rest == "" {
        assert EndsWith(s, d);
      } else {
        assert EndsWith(s, d) == EndsWith(rest, d);
      }
    }
  }

  /** The smallest text that shows the repeat: one line and no newline. */
  lemma UnterminatedLineReadTwice()
    ensures ReadWhileGood(Open("ZONE"), "", '\n') == ["ZONE", "ZONE"]
    ensures Lines("ZONE") == ["ZONE"]
  {
    GoodLoopRepeatsLast("ZONE", "", '\n');
    assert IndexOf("ZONE", '\n') == 4;
  }
}
