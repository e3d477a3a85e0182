/**
 * The source handling of `OpenGLShader`: the one-file constructor splits a file into stage
 * sources at `#region` marker lines and compiles, attaches and deletes the stages whose
 * marker appeared; the two-file constructor joins each file's lines and compiles a
 * vertex/fragment pair. A file is the sequence of lines `getline` returns; the GL calls
 * are events in a returned trace.
 */
module ShaderSource {
  import opened Wrappers

  /** The `Region` enumeration without `None`, in declaration order. */
  datatype Stage = Vertex | Fragment | Geometry | TessControl | TessEval | Compute

  /** The stage's value in the `Region` enumeration: its slot in `src`. */
  function Index(st: Stage): (i: nat)
    ensures i < 6
  {
    match st
    case Vertex => 0
    case Fragment => 1
    case Geometry => 2
    case TessControl => 3
    case TessEval => 4
    case Compute => 5
  }

  function Marker(st: Stage): string
  {
    match st
    case Vertex => "#region Vertex"
    case Fragment => "#region Fragment"
    case Geometry => "#region Geometry"
    case TessControl => "#region TesselationControl"
    case TessEval => "#region TesselationEvaluation"
    case Compute => "#region Compute"
  }

  /** The order the markers are tested in; the same as the enumeration's. */
  const Precedence: seq<Stage> := [Vertex, Fragment, Geometry, TessControl, TessEval, Compute]
  /** The order the flagged stages are compiled in. */
  const CompileOrder: seq<Stage> := [Vertex, Fragment, TessControl, TessEval, Geometry, Compute]
  /** The order the flagged stages are attached, and then deleted, in. */
  const AttachOrder: seq<Stage> := [Vertex, TessControl, TessEval, Geometry, Fragment, Compute]

  // ---- Substring search ----

  /** `pat` occurs in `s` at position i. */
  predicate At(s: string, pat: string, i: nat)
  {
    i + |pat| <= |s| && s[i..i + |pat|] == pat
  }

  ghost predicate Occurs(s: string, pat: string)
  {
    exists i: nat :: At(s, pat, i)
  }

  /** `s.find(pat) != npos`: try every start position from the left. */
  function Contains(s: string, pat: string): bool
    decreases |s|
  {
    if |pat| > |s| then false
    else if s[..|pat|] == pat then true
    else Contains(s[1..], pat)
  }

  /** The search answers exactly whether the pattern occurs. */
  lemma {:induction false} ContainsOccurs(s: string, pat: string)
    ensures Contains(s, pat) <==> Occurs(s, pat)
    decreases |s|
  {
    if |pat| > |s| {
    } else if s[..|pat|] == pat {
      assert At(s, pat, 0);
    } else {
      ContainsOccurs(s[1..], pat);
      if Occurs(s, pat) {
        var i: nat :| At(s, pat, i);
        assert i != 0;
        assert s[1..][i - 1..i - 1 + |pat|] == s[i..i + |pat|];
        assert At(s[1..], pat, i - 1);
      }
      if Occurs(s[1..], pat) {
        var i: nat :| At(s[1..], pat, i);
        assert s[1..][i..i + |pat|] == s[i + 1..i + 1 + |pat|];
        assert At(s, pat, i + 1);
      }
    }
  }

  // ---- Markers ----

  /** The stage of the first marker, in precedence order, that the line contains. */
  function MarkerOf(line: string): Option<Stage>
  {
    if Contains(line, Marker(Vertex)) then Some(Vertex)
    else if Contains(line, Marker(Fragment)) then Some(Fragment)
    else if Contains(line, Marker(Geometry)) then Some(Geometry)
    else if Contains(line, Marker(TessControl)) then Some(TessControl)
    else if Contains(line, Marker(TessEval)) then Some(TessEval)
    else if Contains(line, Marker(Compute)) then Some(Compute)
    else None
  }

  /**
   * A line is a marker line iff it contains some marker, and then it switches to the first
   * stage in precedence order whose marker it contains.
   */
  lemma {:induction false} MarkerPrecedence(line: string)
    ensures MarkerOf(line).None? <==> forall st :: !Occurs(line, Marker(st))
    ensures MarkerOf(line).Some? ==>
      Occurs(line, Marker(MarkerOf(line).value))
      && forall j :: 0 <= j < Index(MarkerOf(line).value) ==> !Occurs(line, Marker(Precedence[j]))
  {
    ContainsOccurs(line, Marker(Vertex));
    ContainsOccurs(line, Marker(Fragment));
    ContainsOccurs(line, Marker(Geometry));
    ContainsOccurs(line, Marker(TessControl));
    ContainsOccurs(line, Marker(TessEval));
    ContainsOccurs(line, Marker(Compute));
    if MarkerOf(line).None? {
      forall st
        ensures !Occurs(line, Marker(st))
      {
        match st
        case Vertex =>
        case Fragment =>
        case Geometry =>
        case TessControl =>
        case TessEval =>
        case Compute =>
      }
    }
  }

  // ---- The line loop ----

  /** The loop's state: the current region, the six sources and the stages flagged. */
  datatype Regions = Regions(region: Option<Stage>, src: seq<string>, seen: set<Stage>)

  const Initial: Regions := Regions(None, ["", "", "", "", "", ""], {})

  /** One line: a marker switches the region and flags its stage; any other line goes to the current region, if any. */
  function Step(r: Regions, line: string): (r': Regions)
    requires |r.src| == 6
    ensures |r'.src| == 6
  {
    match MarkerOf(line)
    case Some(st) => r.(region := Some(st), seen := r.seen + {st})
    case None =>
      if r.region.Some? then r.(src := r.src[Index(r.region.value) := r.src[Index(r.region.value)] + line + "\n"])
      else r
  }

  /** The loop from state `r` over `lines`. */
  function ScanFrom(r: Regions, lines: seq<string>): (r': Regions)
    requires |r.src| == 6
    ensures |r'.src| == 6
    decreases |lines|
  {
    if lines == [] then r else Step(ScanFrom(r, lines[..|lines| - 1]), lines[|lines| - 1])
  }

  /** The whole loop: from no region, empty sources and no flags. */
  function Scan(lines: seq<string>): (r: Regions)
    ensures |r.src| == 6
  {
    ScanFrom(Initial, lines)
  }

  /** The marker of the last marker line, if any. */
  function LastMarker(lines: seq<string>): Option<Stage>
    decreases |lines|
  {
    if lines == [] then None
    else if MarkerOf(lines[|lines| - 1]).Some? then MarkerOf(lines[|lines| - 1])
    else LastMarker(lines[..|lines| - 1])
  }

  /** The text of stage `st`: every non-marker line whose last marker before it is `st`, each with "\n", in file order. */
  function Collected(lines: seq<string>, st: Stage): string
    decreases |lines|
  {
    if lines == [] then ""
    else
      var pre := lines[..|lines| - 1];
      var line := lines[|lines| - 1];
      Collected(pre, st) + (if MarkerOf(line).None? && LastMarker(pre) == Some(st) then line + "\n" else "")
  }

  /**
   * The loop ends in the region of the last marker, and each stage's source is exactly the
   * non-marker lines under that stage's markers: lines before any marker and marker lines
   * themselves are copied nowhere.
   */
  lemma {:induction false} ScanCollects(lines: seq<string>)
    ensures Scan(lines).region == LastMarker(lines)
    ensures forall st :: Scan(lines).src[Index(st)] == Collected(lines, st)
    decreases |lines|
  {
    if lines == [] {
      forall st
        ensures Scan(lines).src[Index(st)] == Collected(lines, st)
      {
        assert Initial.src[Index(st)] == "";
      }
    } else {
      var pre := lines[..|lines| - 1];
      ScanCollects(pre);
    }
  }

  /** A stage is flagged iff one of the lines switched to it. */
  lemma {:induction false} ScanFlags(lines: seq<string>, st: Stage)
    ensures st in Scan(lines).seen <==> exists i :: 0 <= i < |lines| && MarkerOf(lines[i]) == Some(st)
    decreases |lines|
  {
    if lines != [] {
      var pre := lines[..|lines| - 1];
      ScanFlags(pre, st);
      if exists i :: 0 <= i < |pre| && MarkerOf(pre[i]) == Some(st) {
        var i :| 0 <= i < |pre| && MarkerOf(pre[i]) == Some(st);
        assert lines[i] == pre[i];
      }
      if exists i :: 0 <= i < |lines| && MarkerOf(lines[i]) == Some(st) {
        var i :| 0 <= i < |lines| && MarkerOf(lines[i]) == Some(st);
        if i < |pre| {
          assert pre[i] == lines[i];
        }
      }
    }
  }

  /** Running the loop over two pieces of a file is running it over the whole. */
  lemma {:induction false} ScanFromAppend(r: Regions, a: seq<string>, b: seq<string>)
    requires |r.src| == 6
    ensures ScanFrom(r, a + b) == ScanFrom(ScanFrom(r, a), b)
    decreases |b|
  {
    if b == [] {
      assert a + b == a;
    } else {
      var pre := b[..|b| - 1];
      ScanFromAppend(r, a, pre);
      assert (a + b)[..|a + b| - 1] == a + pre;
    }
  }

  /** Lines without markers before the first marker leave the initial state untouched. */
  lemma {:induction false} PreambleKeepsInitial(pre: seq<string>)
    requires forall i :: 0 <= i < |pre| ==> MarkerOf(pre[i]).None?
    ensures Scan(pre) == Initial
    decreases |pre|
  {
    if pre != [] {
      PreambleKeepsInitial(pre[..|pre| - 1]);
    }
  }

  /** A preamble of lines without markers changes nothing about the result: it is discarded. */
  lemma {:induction false} PreambleDiscarded(pre: seq<string>, rest: seq<string>)
    requires forall i :: 0 <= i < |pre| ==> MarkerOf(pre[i]).None?
    ensures Scan(pre + rest) == Scan(rest)
  {
    ScanFromAppend(Initial, pre, rest);
    PreambleKeepsInitial(pre);
  }

  /** Each stage's text only grows as lines are read: re-entering a region appends to it. */
  lemma {:induction false} CollectedGrows(lines: seq<string>, j: nat, st: Stage)
    requires j <= |lines|
    ensures var c := Collected(lines, st); var p := Collected(lines[..j], st);
      |p| <= |c| && c[..|p|] == p
    decreases |lines|
  {
    if j < |lines| {
      var pre := lines[..|lines| - 1];
      assert pre[..j] == lines[..j];
      CollectedGrows(pre, j, st);
    } else {
      assert lines[..j] == lines;
    }
  }

  /** The loop of `OpenGLShader(filepath)`, proved to follow `Scan`. */
  method SplitRegions(lines: seq<string>) returns (r: Regions)
    ensures r == Scan(lines)
  {
    var src := ["", "", "", "", "", ""];
    var region: Option<Stage> := None;
    var seen: set<Stage> := {};
    var i := 0;
    while i < |lines|
      invariant 0 <= i <= |lines|
      invariant Regions(region, src, seen) == Scan(lines[..i])
    {
      var line := lines[i];
      assert lines[..i + 1][..i] == lines[..i];
      if Contains(line, Marker(Vertex)) {
        region, seen := Some(Vertex), seen + {Vertex};
      } else if Contains(line, Marker(Fragment)) {
        region, seen := Some(Fragment), seen + {Fragment};
      } else if Contains(line, Marker(Geometry)) {
        region, seen := Some(Geometry), seen + {Geometry};
      } else if Contains(line, Marker(TessControl)) {
        region, seen := Some(TessControl), seen + {TessControl};
      } else if Contains(line, Marker(TessEval)) {
        region, seen := Some(TessEval), seen + {TessEval};
      } else if Contains(line, Marker(Compute)) {
        region, seen := Some(Compute), seen + {Compute};
      } else if region.Some? {
        var k := Index(region.value);
        src := src[k := src[k] + line + "\n"];
      }
      i := i + 1;
    }
    assert lines[..i] == lines;
    r := Regions(region, src, seen);
  }

  // ---- Compiling, attaching and deleting ----

  datatype GlEvent =
    | CompileStage(stage: Stage, source: string)
    | CreateProgram
    | Attach(stage: Stage)
    | LinkProgram
    | DeleteStage(stage: Stage)
    | CompileAndLink(vertexSource: string, fragmentSource: string)

  /** The stages of `order` that are flagged, in that order. */
  function Flagged(order: seq<Stage>, seen: set<Stage>): seq<Stage>
    decreases |order|
  {
    if order == [] then [] else (if order[0] in seen then [order[0]] else []) + Flagged(order[1..], seen)
  }

  /** Position of `st` in `order` (|order| when absent). */
  function PosIn(order: seq<Stage>, st: Stage): nat
    decreases |order|
  {
    if order == [] then 0 else if order[0] == st then 0 else 1 + PosIn(order[1..], st)
  }

  predicate NoRepeats(order: seq<Stage>)
  {
    forall i, j :: 0 <= i < j < |order| ==> order[i] != order[j]
  }

  /** The flagged stages are exactly the flagged members of the order. */
  lemma {:induction false} FlaggedMembers(order: seq<Stage>, seen: set<Stage>, st: Stage)
    ensures st in Flagged(order, seen) <==> st in order && st in seen
    decreases |order|
  {
    if order != [] {
      FlaggedMembers(order[1..], seen, st);
      assert order == [order[0]] + order[1..];
    }
  }

  /** The flagged stages keep the order's order and occur once each. */
  lemma {:induction false} FlaggedOrdered(order: seq<Stage>, seen: set<Stage>)
    requires NoRepeats(order)
    ensures var f := Flagged(order, seen);
      forall i, j :: 0 <= i < j < |f| ==> PosIn(order, f[i]) < PosIn(order, f[j])
    decreases |order|
  {
    if order != [] {
      var t := order[1..];
      assert NoRepeats(t) by {
        forall i, j | 0 <= i < j < |t|
          ensures t[i] != t[j]
        {
          assert t[i] == order[i + 1] && t[j] == order[j + 1];
        }
      }
      FlaggedOrdered(t, seen);
      var ft := Flagged(t, seen);
      forall k | 0 <= k < |ft|
        ensures ft[k] != order[0] && PosIn(order, ft[k]) == 1 + PosIn(t, ft[k])
      {
        FlaggedMembers(t, seen, ft[k]);
        var p :| 0 <= p < |t| && t[p] == ft[k];
        assert order[p + 1] == t[p];
      }
      var f := Flagged(order, seen);
      forall i, j | 0 <= i < j < |f|
        ensures PosIn(order, f[i]) < PosIn(order, f[j])
      {
        if order[0] in seen {
          assert f == [order[0]] + ft;
          if i == 0 {
            assert f[j] == ft[j - 1];
          } else {
            assert f[i] == ft[i - 1] && f[j] == ft[j - 1];
          }
        } else {
          assert f == ft;
        }
      }
    }
  }

  function Compiles(stages: seq<Stage>, src: seq<string>): (es: seq<GlEvent>)
    requires |src| == 6
    ensures |es| == |stages|
    ensures forall i :: 0 <= i < |stages| ==> es[i] == CompileStage(stages[i], src[Index(stages[i])])
    decreases |stages|
  {
    if stages == [] then [] else [CompileStage(stages[0], src[Index(stages[0])])] + Compiles(stages[1..], src)
  }

  function Attaches(stages: seq<Stage>): (es: seq<GlEvent>)
    ensures |es| == |stages| && forall i :: 0 <= i < |stages| ==> es[i] == Attach(stages[i])
    decreases |stages|
  {
    if stages == [] then [] else [Attach(stages[0])] + Attaches(stages[1..])
  }

  function Deletes(stages: seq<Stage>): (es: seq<GlEvent>)
    ensures |es| == |stages| && forall i :: 0 <= i < |stages| ==> es[i] == DeleteStage(stages[i])
    decreases |stages|
  {
    if stages == [] then [] else [DeleteStage(stages[0])] + Deletes(stages[1..])
  }

  /** Compile the flagged stages, create the program, attach them, link, delete them. */
  function ProgramEvents(r: Regions): seq<GlEvent>
    requires |r.src| == 6
  {
    Compiles(Flagged(CompileOrder, r.seen), r.src) + LinkEvents(Flagged(AttachOrder, r.seen))
  }

  /** After compiling: create the program, attach the stages, link, delete the stages. */
  function LinkEvents(attached: seq<Stage>): seq<GlEvent>
  {
    [CreateProgram] + Attaches(attached) + [LinkProgram] + Deletes(attached)
  }

  lemma {:induction false} EveryStageOrdered(st: Stage)
    ensures st in CompileOrder && st in AttachOrder
  {
    match st
    case Vertex =>
    case Fragment => assert CompileOrder[1] == st && AttachOrder[4] == st;
    case Geometry => assert CompileOrder[4] == st && AttachOrder[3] == st;
    case TessControl => assert CompileOrder[2] == st && AttachOrder[1] == st;
    case TessEval => assert CompileOrder[3] == st && AttachOrder[2] == st;
    case Compute => assert CompileOrder[5] == st && AttachOrder[5] == st;
  }

  /** A stage is compiled, attached and deleted exactly when it was flagged. */
  lemma {:induction false} ProgramStages(r: Regions, st: Stage)
    requires |r.src| == 6
    ensures (st in Flagged(CompileOrder, r.seen) <==> st in r.seen)
      && (st in Flagged(AttachOrder, r.seen) <==> st in r.seen)
  {
    EveryStageOrdered(st);
    FlaggedMembers(CompileOrder, r.seen, st);
    FlaggedMembers(AttachOrder, r.seen, st);
  }

  /** The program's work opens with one compile per flagged stage, each from that stage's source. */
  lemma {:induction false} ProgramCompilesFirst(r: Regions)
    requires |r.src| == 6
    ensures var c := Flagged(CompileOrder, r.seen);
      forall i :: 0 <= i < |c| ==> ProgramEvents(r)[i] == CompileStage(c[i], r.src[Index(c[i])])
  {
    var c := Compiles(Flagged(CompileOrder, r.seen), r.src);
    var rest := LinkEvents(Flagged(AttachOrder, r.seen));
    assert forall i :: 0 <= i < |c| ==> (c + rest)[i] == c[i];
  }

  /** Attaching, and deleting, follows vertex, tess-control, tess-eval, geometry, fragment, compute. */
  lemma {:induction false} AttachOrdered(seen: set<Stage>)
    ensures var a := Flagged(AttachOrder, seen);
      forall i, j :: 0 <= i < j < |a| ==> PosIn(AttachOrder, a[i]) < PosIn(AttachOrder, a[j])
  {
    FlaggedOrdered(AttachOrder, seen);
  }

  /**
   * `OpenGLShader(filepath)`: a file that cannot be opened gives no GL work at all;
   * otherwise the lines are split and the flagged stages are built.
   */
  method LoadRegions(file: Option<seq<string>>) returns (events: seq<GlEvent>)
    ensures file.None? ==> events == []
    ensures file.Some? ==> events == ProgramEvents(Scan(file.value))
  {
    if file.None? {
      return [];
    }
    var r := SplitRegions(file.value);
    events := ProgramEvents(r);
  }

  // ---- The two-file constructor ----

  /** `while (getline(handle, line)) src += line + "\n"`. */
  function Joined(lines: seq<string>): string
    decreases |lines|
  {
    if lines == [] then "" else lines[0] + "\n" + Joined(lines[1..])
  }

  lemma {:induction false} JoinedSnoc(lines: seq<string>, line: string)
    ensures Joined(lines + [line]) == Joined(lines) + line + "\n"
    decreases |lines|
  {
    if lines != [] {
      assert (lines + [line])[1..] == lines[1..] + [line];
      JoinedSnoc(lines[1..], line);
    }
  }

  /** Position of the first '\n' in `s`, or |s| when there is none. */
  function NewlineAt(s: string): (k: nat)
    ensures k <= |s| && (k < |s| ==> s[k] == '\n') && forall i :: 0 <= i < k ==> s[i] != '\n'
    decreases |s|
  {
    if s == [] then 0 else if s[0] == '\n' then 0 else 1 + NewlineAt(s[1..])
  }

  /** `getline` over a whole file: lines end at '\n'; a last line without one still counts. */
  function Lines(s: string): seq<string>
    decreases |s|
  {
    if s == [] then []
    else
      var k := NewlineAt(s);
      if k == |s| then [s] else [s[..k]] + Lines(s[k + 1..])
  }

  /** Joining lines that hold no '\n' and reading them back with `getline` gives the same lines. */
  lemma {:induction false} JoinedLinesRoundTrip(lines: seq<string>)
    requires forall i, j :: 0 <= i < |lines| && 0 <= j < |lines[i]| ==> lines[i][j] != '\n'
    ensures Lines(Joined(lines)) == lines
    decreases |lines|
  {
    if lines != [] {
      var s := Joined(lines);
      var l := lines[0];
      assert s == l + "\n" + Joined(lines[1..]);
      assert NewlineAt(s) == |l| by {
        assert forall i :: 0 <= i < |l| ==> s[i] == l[i] && s[i] != '\n';
        assert s[|l|] == '\n';
      }
      assert s[..|l|] == l;
      assert s[|l| + 1..] == Joined(lines[1..]);
      JoinedLinesRoundTrip(lines[1..]);
    }
  }

  /** The read loop of one file, proved to follow `Joined`. */
  method ReadSource(lines: seq<string>) returns (src: string)
    ensures src == Joined(lines)
  {
    src := "";
    var i := 0;
    while i < |lines|
      invariant 0 <= i <= |lines| && src == Joined(lines[..i])
    {
      JoinedSnoc(lines[..i], lines[i]);
      assert lines[..i + 1] == lines[..i] + [lines[i]];
      src := src + lines[i] + "\n";
      i := i + 1;
    }
    assert lines[..i] == lines;
  }

  /**
   * `OpenGLShader(vertexFilepath, fragmentFilepath)`: either file failing to open gives no GL
   * work; otherwise one compile-and-link of the two joined sources.
   */
  method LoadPair(vertexFile: Option<seq<string>>, fragmentFile: Option<seq<string>>) returns (events: seq<GlEvent>)
    ensures vertexFile.None? || fragmentFile.None? ==> events == []
    ensures vertexFile.Some? && fragmentFile.Some? ==>
      events == [CompileAndLink(Joined(vertexFile.value), Joined(fragmentFile.value))]
  {
    if vertexFile.None? {
      return [];
    }
    var vertexSrc := ReadSource(vertexFile.value);
    if fragmentFile.None? {
      return [];
    }
    var fragmentSrc := ReadSource(fragmentFile.value);
    events := [CompileAndLink(vertexSrc, fragmentSrc)];
  }
}
