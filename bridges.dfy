/** The bridge rewriter of the Advanced Bridges post-processing script, as a
    specification over values: the settings, the per-line state machine, the
    text emitted for one line, one layer and the whole list of layers. */
module Bridges {
  import opened Wrappers
  import opened Text
  import opened Numbers
  import opened Classify

  /** The settings `execute` reads before it starts. The two percentages are
      kept as entered; `useRetract` and `retractValue` are read but never used. */
  datatype Config = Config(
    doPauses: bool, delayTime: int,
    playTone: bool, toneTime: int, toneFreq: int,
    setSpeed: bool, newSpeed: int, mulSpeed: bool, mulSpeedPercent: real,
    setFlow: bool, newFlow: real, mulFlow: bool, mulFlowPercent: real,
    useRetract: bool, retractValue: real)

  /** Why a run stops part way: `float()` refusing a captured number, or the
      new speed or flow never having been assigned (neither of its two
      switches on). */
  datatype Error = NotANumber(text: string) | SpeedUnbound | FlowUnbound

  /** The speed factor: the percentage divided by 100. */
  function SpeedFactor(cfg: Config): real { cfg.mulSpeedPercent / 100.0 }

  /** The flow factor: the percentage divided by 100. */
  function FlowFactor(cfg: Config): real { cfg.mulFlowPercent / 100.0 }

  // ---------------------------------------------------------------------
  // The pause inserted before every rewritten move
  // ---------------------------------------------------------------------

  function ToneCommand(cfg: Config): string {
    "M300 P" + IntToString(cfg.toneTime) + " S" + IntToString(cfg.toneFreq) + " ; play tone "
  }

  function PauseCommand(cfg: Config): string {
    "G4 P" + IntToString(cfg.delayTime) + " ; delay "
  }

  /** The delay instruction: empty without pauses; otherwise the optional tone,
      a newline and the dwell. */
  function DelayInstruction(cfg: Config): string {
    if !cfg.doPauses then ""
    else (if cfg.playTone then ToneCommand(cfg) else "") + ("\n" + PauseCommand(cfg))
  }

  /** Neither command of the delay holds a newline. */
  lemma CommandsSingle(cfg: Config)
    ensures '\n' !in ToneCommand(cfg) && '\n' !in PauseCommand(cfg)
  {
    var t, f, d := IntToString(cfg.toneTime), IntToString(cfg.toneFreq), IntToString(cfg.delayTime);
    assert '\n' !in "M300 P" && '\n' !in " S" && '\n' !in " ; play tone ";
    assert '\n' !in "G4 P" && '\n' !in " ; delay ";
  }

  /** As lines, the delay instruction is nothing, or an optional tone line
      (empty when the tone is off) followed by the dwell line. */
  lemma DelayLines(cfg: Config)
    ensures !cfg.doPauses ==> SplitLines(DelayInstruction(cfg)) == [""]
    ensures cfg.doPauses && cfg.playTone ==>
      SplitLines(DelayInstruction(cfg)) == [ToneCommand(cfg), PauseCommand(cfg)]
    ensures cfg.doPauses && !cfg.playTone ==>
      SplitLines(DelayInstruction(cfg)) == ["", PauseCommand(cfg)]
  {
    var tone := if cfg.playTone then ToneCommand(cfg) else "";
    var pause := PauseCommand(cfg);
    CommandsSingle(cfg);
    if cfg.doPauses {
      TwoLines(tone, pause);
    } else {
      SplitLinesSingle("");
    }
  }

  // ---------------------------------------------------------------------
  // Numbers read from a move and the new speed and flow
  // ---------------------------------------------------------------------

  /** `float(group[1:])`: the captured text loses its first character before
      it is read. */
  function ReadNumber(group: string): Result<real, Error>
  {
    match ParseDecimal(DropFirst(group))
    case None => Err(NotANumber(DropFirst(group)))
    case Some(v) => Ok(v)
  }

  /** A reading is the value of the group without its first character; it
      fails, naming that text, exactly when the text has no digit. */
  lemma ReadNumberMeaning(group: string)
    ensures ReadNumber(group).Ok? ==>
      ParseDecimal(DropFirst(group)) == Some(ReadNumber(group).value) && ReadNumber(group).value >= 0.0
    ensures ReadNumber(group).Err? ==> ReadNumber(group) == Err(NotANumber(DropFirst(group)))
    ensures IsDecimalText(group) ==> (ReadNumber(group).Ok? <==> HasDigit(DropFirst(group)))
  {
    if IsDecimalText(group) {
      ParseDecimalDefined(DropFirst(group));
    }
  }

  /** The new feed rate: `set_speed` assigns the fixed speed, then `mul_speed`
      (when on) overwrites it with the scaled current speed. */
  function NewSpeed(cfg: Config, currentF: real): (r: Result<real, Error>)
    ensures cfg.mulSpeed ==> r == Ok(currentF * SpeedFactor(cfg))
    ensures cfg.setSpeed && !cfg.mulSpeed ==> r == Ok(cfg.newSpeed as real)
    ensures !cfg.setSpeed && !cfg.mulSpeed ==> r == Err(SpeedUnbound)
  {
    var afterSet := if cfg.setSpeed then Some(cfg.newSpeed as real) else None;
    var afterMul := if cfg.mulSpeed then Some(currentF * SpeedFactor(cfg)) else afterSet;
    if afterMul.Some? then Ok(afterMul.value) else Err(SpeedUnbound)
  }

  /** The new extrusion amount: `set_flow` assigns the fixed flow, then
      `mul_flow` (when on) overwrites it with the scaled difference from the
      previous extrusion reading. */
  function NewFlow(cfg: Config, currentE: real, previousE: real): (r: Result<real, Error>)
    ensures cfg.mulFlow ==> r == Ok((currentE - previousE) * FlowFactor(cfg))
    ensures cfg.setFlow && !cfg.mulFlow ==> r == Ok(cfg.newFlow)
    ensures !cfg.setFlow && !cfg.mulFlow ==> r == Err(FlowUnbound)
  {
    var afterSet := if cfg.setFlow then Some(cfg.newFlow) else None;
    var afterMul := if cfg.mulFlow then Some((currentE - previousE) * FlowFactor(cfg)) else afterSet;
    if afterMul.Some? then Ok(afterMul.value) else Err(FlowUnbound)
  }

  // ---------------------------------------------------------------------
  // The rewritten move
  // ---------------------------------------------------------------------

  /** The two textual substitutions made in a bridge move. */
  datatype Edit = Edit(oldF: string, newF: string, oldE: string, newE: string)

  /** The substitutions for a move holding both an `F` and an `E`: the old
      words are the letters with their whole captures, the new words the new
      speed with no decimals and the new flow with five. */
  function PlanEdit(cfg: Config, line: string, previousE: real): Result<Edit, Error>
    requires 'F' in line && 'E' in line
  {
    var gF := Capture(line, 'F').value;
    var gE := Capture(line, 'E').value;
    var currentF :- ReadNumber(gF);
    var newF :- NewSpeed(cfg, currentF);
    var currentE :- ReadNumber(gE);
    var newE :- NewFlow(cfg, currentE, previousE);
    Ok(Edit("F" + gF, "F" + Fixed(newF, 0), "E" + gE, "E" + Fixed(newE, 5)))
  }

  /** The substitutions fail at the first of: the speed capture not being a
      number, no speed switch on, the extrusion capture not being a number, no
      flow switch on. Otherwise they replace each captured word by the letter
      and the new value as `"{:.0f}"` and `"{:.5f}"` write it: a '-' exactly
      for a negative value, then canonical digits (for the flow, with exactly
      five decimals), which `float()` reads back as the new speed rounded to
      a whole number and the new flow rounded to five decimals. */
  lemma PlanEditMeaning(cfg: Config, line: string, previousE: real)
    requires 'F' in line && 'E' in line
    ensures var r := PlanEdit(cfg, line, previousE);
      var gF, gE := Capture(line, 'F').value, Capture(line, 'E').value;
      var speedOn, flowOn := cfg.setSpeed || cfg.mulSpeed, cfg.setFlow || cfg.mulFlow;
      && (ReadNumber(gF).Err? ==> r == Err(NotANumber(DropFirst(gF))))
      && (ReadNumber(gF).Ok? && !speedOn ==> r == Err(SpeedUnbound))
      && (ReadNumber(gF).Ok? && speedOn && ReadNumber(gE).Err? ==> r == Err(NotANumber(DropFirst(gE))))
      && (ReadNumber(gF).Ok? && speedOn && ReadNumber(gE).Ok? && !flowOn ==> r == Err(FlowUnbound))
      && (ReadNumber(gF).Ok? && speedOn && ReadNumber(gE).Ok? && flowOn ==>
            && r.Ok?
            && r.value.oldF == "F" + gF && r.value.oldE == "E" + gE
            && r.value.newF == "F" + Fixed(NewSpeed(cfg, ReadNumber(gF).value).value, 0)
            && r.value.newE == "E" + Fixed(NewFlow(cfg, ReadNumber(gE).value, previousE).value, 5)
            && FixedText(r.value.newF[1..], NewSpeed(cfg, ReadNumber(gF).value).value, 0)
            && FixedText(r.value.newE[1..], NewFlow(cfg, ReadNumber(gE).value, previousE).value, 5))
  {
    var gF, gE := Capture(line, 'F').value, Capture(line, 'E').value;
    if ReadNumber(gF).Ok? && (cfg.setSpeed || cfg.mulSpeed) && ReadNumber(gE).Ok? && (cfg.setFlow || cfg.mulFlow) {
      var speed := NewSpeed(cfg, ReadNumber(gF).value).value;
      var flow := NewFlow(cfg, ReadNumber(gE).value, previousE).value;
      FixedReadsBack(speed, 0);
      FixedReadsBack(flow, 5);
      assert ("F" + Fixed(speed, 0))[1..] == Fixed(speed, 0);
      assert ("E" + Fixed(flow, 5))[1..] == Fixed(flow, 5);
    }
  }

  /** The move with its old speed word replaced everywhere, then its old
      extrusion word. */
  function Apply(e: Edit, line: string): (r: string)
    requires |e.oldF| > 0 && |e.oldE| > 0
    ensures '\n' !in line && '\n' !in e.newF && '\n' !in e.newE ==> '\n' !in r
  {
    ReplaceAll(ReplaceAll(line, e.oldF, e.newF), e.oldE, e.newE)
  }

  /** The two substitutions are two split-and-join passes: the move split at
      every leftmost occurrence of the old speed word and joined with the new
      one, then that text split at the old extrusion word and joined with the
      new one. */
  lemma ApplyMeaning(e: Edit, line: string)
    requires |e.oldF| > 0 && |e.oldE| > 0
    ensures Apply(e, line) == JoinWith(e.newE, SplitOn(JoinWith(e.newF, SplitOn(line, e.oldF)), e.oldE))
  {
    var speedDone := ReplaceAll(line, e.oldF, e.newF);
    ReplaceAllIsJoinOfSplit(line, e.oldF, e.newF);
    ReplaceAllIsJoinOfSplit(speedDone, e.oldE, e.newE);
  }

  /** A numeral holds no newline. */
  lemma NumeralOneLine(s: string)
    requires IsNumeral(s)
    ensures '\n' !in s
  {
    assert forall i :: 0 <= i < |s| ==> s[i] != '\n';
  }

  const RelativeLine := "M83 ; set extruder to relative"
  const AbsoluteLine := "M82 ; set extruder to absolute"

  /** The rewritten move, marked as changed. */
  function ChangedLine(moved: string): string { moved + " ; FLOW CHANGED" }

  /** The reset of the extruder to the position the move named. */
  function ResetLine(oldE: string): string { "G92 " + oldE + " ; set extruder position" }

  /** The four lines after the delay, each preceded by a newline: relative
      extrusion, the rewritten move, absolute extrusion and the reset of the
      extruder to its old position. */
  function MoveBlock(moved: string, oldE: string): string {
    "\n" + (RelativeLine + ("\n" + (ChangedLine(moved) + ("\n" + (AbsoluteLine + ("\n" + ResetLine(oldE)))))))
  }

  /** What a qualifying move becomes: the delay instruction alone when the move
      lacks an `F` or an `E`, otherwise the delay followed by the move block. */
  function BridgeBlock(cfg: Config, line: string, previousE: real): Result<string, Error>
  {
    var delay := DelayInstruction(cfg);
    if 'F' !in line || 'E' !in line then Ok(delay)
    else
      var e :- PlanEdit(cfg, line, previousE);
      Ok(delay + MoveBlock(Apply(e, line), e.oldE))
  }

  /** A move lacking an `F` or an `E` is reduced to the delay; otherwise the
      block fails exactly when its substitutions do, and starts with the
      delay when it does not. */
  lemma BridgeBlockMeaning(cfg: Config, line: string, previousE: real)
    ensures 'F' !in line || 'E' !in line ==> BridgeBlock(cfg, line, previousE) == Ok(DelayInstruction(cfg))
    ensures 'F' in line && 'E' in line && PlanEdit(cfg, line, previousE).Err? ==>
      BridgeBlock(cfg, line, previousE) == Err(PlanEdit(cfg, line, previousE).error)
    ensures 'F' in line && 'E' in line && PlanEdit(cfg, line, previousE).Ok? ==>
      BridgeBlock(cfg, line, previousE).Ok? && DelayInstruction(cfg) <= BridgeBlock(cfg, line, previousE).value
  {
    if 'F' in line && 'E' in line && PlanEdit(cfg, line, previousE).Ok? {
      var delay := DelayInstruction(cfg);
      var e := PlanEdit(cfg, line, previousE).value;
      var block := delay + MoveBlock(Apply(e, line), e.oldE);
      assert block[..|delay|] == delay;
    }
  }

  /** A decimal capture holds no newline. */
  lemma DecimalOneLine(s: string)
    requires IsDecimalText(s)
    ensures '\n' !in s
  {
    assert forall i :: 0 <= i < |s| ==> s[i] != '\n';
  }

  /** The move block adds four lines after whatever precedes it. */
  lemma MoveBlockLines(before: string, moved: string, oldE: string)
    requires '\n' !in moved && '\n' !in oldE
    ensures SplitLines(before + MoveBlock(moved, oldE)) ==
      SplitLines(before) + [RelativeLine, ChangedLine(moved), AbsoluteLine, ResetLine(oldE)]
  {
    var l1, l2, l3, l4 := RelativeLine, ChangedLine(moved), AbsoluteLine, ResetLine(oldE);
    FourLines(l1, l2, l3, l4);
    SplitLinesCons(before, l1 + ("\n" + (l2 + ("\n" + (l3 + ("\n" + l4))))));
  }

  /** The substitutions of a move introduce no newline. */
  lemma EditOneLine(cfg: Config, line: string, previousE: real)
    requires 'F' in line && 'E' in line
    requires PlanEdit(cfg, line, previousE).Ok?
    ensures var e := PlanEdit(cfg, line, previousE).value;
      '\n' !in e.newF && '\n' !in e.oldE && '\n' !in e.newE
  {
    PlanEditMeaning(cfg, line, previousE);
    var gF, gE := Capture(line, 'F').value, Capture(line, 'E').value;
    CaptureMeaning(line, 'E');
    NumeralOneLine(Fixed(NewSpeed(cfg, ReadNumber(gF).value).value, 0));
    NumeralOneLine(Fixed(NewFlow(cfg, ReadNumber(gE).value, previousE).value, 5));
    DecimalOneLine(gE);
  }

  /** As lines, a rewritten move is the delay's lines followed by the four
      lines of the move block, the move itself rewritten in the second. */
  lemma BlockLines(cfg: Config, line: string, previousE: real)
    requires '\n' !in line && 'F' in line && 'E' in line
    requires PlanEdit(cfg, line, previousE).Ok?
    ensures var e := PlanEdit(cfg, line, previousE).value;
      BridgeBlock(cfg, line, previousE).Ok? &&
      SplitLines(BridgeBlock(cfg, line, previousE).value) ==
        SplitLines(DelayInstruction(cfg)) +
        [RelativeLine, ChangedLine(Apply(e, line)), AbsoluteLine, ResetLine(e.oldE)]
  {
    var e := PlanEdit(cfg, line, previousE).value;
    EditOneLine(cfg, line, previousE);
    assert BridgeBlock(cfg, line, previousE) == Ok(DelayInstruction(cfg) + MoveBlock(Apply(e, line), e.oldE));
    MoveBlockLines(DelayInstruction(cfg), Apply(e, line), e.oldE);
  }

  // ---------------------------------------------------------------------
  // The per-line state machine of one layer
  // ---------------------------------------------------------------------

  /** `is_a_bridge` and `current_type`, reset at the start of every layer. */
  datatype LineState = LineState(isBridge: bool, currentType: string)

  const LayerStart := LineState(false, "initial")

  /** The state after reading a line: a bridge opens on `;BRIDGE` and closes on
      an end marker; a `;TYPE` line replaces the current type, unless the
      type it names is `none`. */
  function Next(st: LineState, line: string): (r: LineState)
    ensures r.isBridge <==> IsBeginBridge(line) || (st.isBridge && !IsEndBridge(line))
    ensures GetType(line) != "none" ==> r.currentType == GetType(line)
    ensures GetType(line) == "none" ==> r.currentType == st.currentType
  {
    MarkersExclusive(line);
    var open := IsBeginBridge(line) || st.isBridge;
    var isBridge := if IsEndBridge(line) then false else open;
    var currentType := if GetType(line) != "none" then GetType(line) else st.currentType;
    LineState(isBridge, currentType)
  }

  /** The text appended to a line that starts or ends a bridge region. When
      the line is itself a rewritten move, its block replaces the annotated
      text, so the annotation is lost. */
  function Annotation(st: LineState, line: string): (r: string)
    ensures r == "\n;START_BRIDGE" <==> IsBeginBridge(line) && !st.isBridge
    ensures r == "\n;END_BRIDGE" <==> IsEndBridge(line) && st.isBridge
    ensures r == "" <==> !((IsBeginBridge(line) && !st.isBridge) || (IsEndBridge(line) && st.isBridge))
  {
    MarkersExclusive(line);
    if IsBeginBridge(line) && !st.isBridge then "\n;START_BRIDGE"
    else if IsEndBridge(line) && st.isBridge then "\n;END_BRIDGE"
    else ""
  }

  /** The region types whose moves are rewritten. */
  predicate TargetType(t: string) {
    t == "WALL-OUTER" || t == "initial"
  }

  /** A move rewritten in state `st` (the state after reading it). */
  predicate Qualifies(st: LineState, line: string) {
    st.isBridge && TargetType(st.currentType) && IsExtrusionLine(line)
  }

  /** The extrusion reading remembered from a move (first character of the
      capture dropped, as everywhere). */
  function EReading(line: string): Result<real, Error>
    requires IsExtrusionLine(line)
  {
    ExtrusionLineMeaning(line);
    ReadNumber(Capture(line, 'E').value)
  }

  /** The result of handling one line. */
  datatype Step = Step(text: string, st: LineState, previousE: real)

  /** A handler for one line: from the state and the reading before the line,
      and the line itself, to the line's outcome. */
  type LineFn = (LineState, real, string) -> Result<Step, Error>

  /** One iteration of the inner loop: the new state, the line's new text and
      the remembered extrusion reading. */
  function StepLine(cfg: Config, st: LineState, previousE: real, line: string): Result<Step, Error>
  {
    var st' := Next(st, line);
    var text :- if Qualifies(st', line) then BridgeBlock(cfg, line, previousE) else Ok(line + Annotation(st, line));
    if IsExtrusionLine(line) then
      var e :- EReading(line);
      Ok(Step(text, st', e))
    else
      Ok(Step(text, st', previousE))
  }

  /** One line: a qualifying move becomes its bridge block, any other line
      keeps its text and gains its annotation; every extrusion move, rewritten
      or not, sets the remembered reading; and the line fails exactly when its
      bridge block or its reading does. */
  lemma StepLineMeaning(cfg: Config, st: LineState, previousE: real, line: string)
    ensures var r := StepLine(cfg, st, previousE, line);
      && (r.Ok? ==> r.value.st == Next(st, line))
      && (r.Ok? && Qualifies(Next(st, line), line) ==> BridgeBlock(cfg, line, previousE) == Ok(r.value.text))
      && (r.Ok? && !Qualifies(Next(st, line), line) ==> r.value.text == line + Annotation(st, line))
      && (r.Ok? && IsExtrusionLine(line) ==> EReading(line) == Ok(r.value.previousE))
      && (r.Ok? && !IsExtrusionLine(line) ==> r.value.previousE == previousE)
      && (r.Err? <==> ((Qualifies(Next(st, line), line) && BridgeBlock(cfg, line, previousE).Err?)
                       || (IsExtrusionLine(line) && EReading(line).Err?)))
  {
  }

  /** The line handler of the rewriter with settings `cfg`. */
  function LineRewriter(cfg: Config): LineFn {
    (st: LineState, previousE: real, line: string) => StepLine(cfg, st, previousE, line)
  }

  /** The state after a prefix of a layer's lines. */
  function StateAfter(lines: seq<string>): LineState
  {
    if |lines| == 0 then LayerStart
    else Next(StateAfter(lines[..|lines| - 1]), lines[|lines| - 1])
  }

  /** What the inner loop has produced after some lines. */
  datatype Scan = Scan(out: seq<string>, st: LineState, previousE: real)

  /** The inner loop over a layer's lines, from the start-of-layer state,
      stopping at the first line that fails. */
  function ScanLines(step: LineFn, lines: seq<string>, previousE: real): (r: Result<Scan, Error>)
    ensures r.Ok? ==> |r.value.out| == |lines|
  {
    if |lines| == 0 then Ok(Scan([], LayerStart, previousE))
    else
      var sc :- ScanLines(step, lines[..|lines| - 1], previousE);
      var s :- step(sc.st, sc.previousE, lines[|lines| - 1]);
      Ok(Scan(sc.out + [s.text], s.st, s.previousE))
  }

  /** The state the rewriter's inner loop keeps is the state after the lines
      read so far. */
  lemma {:induction false} ScanState(cfg: Config, lines: seq<string>, previousE: real)
    requires ScanLines(LineRewriter(cfg), lines, previousE).Ok?
    ensures ScanLines(LineRewriter(cfg), lines, previousE).value.st == StateAfter(lines)
  {
    if |lines| > 0 {
      var pre := lines[..|lines| - 1];
      ScanState(cfg, pre, previousE);
      var sc := ScanLines(LineRewriter(cfg), pre, previousE).value;
      StepLineMeaning(cfg, sc.st, sc.previousE, lines[|lines| - 1]);
    }
  }

  /** One layer: split into lines, rewritten, joined back; with the extrusion
      reading carried to the next layer. */
  function RewriteLayer(cfg: Config, layer: string, previousE: real): Result<(string, real), Error>
  {
    var sc :- ScanLines(LineRewriter(cfg), SplitLines(layer), previousE);
    Ok((JoinLines(sc.out), sc.previousE))
  }

  /** A layer is rewritten exactly when the scan over its lines succeeds,
      into the join of the scan's texts. */
  lemma LayerOfScan(cfg: Config, layer: string, previousE: real)
    ensures var sc := ScanLines(LineRewriter(cfg), SplitLines(layer), previousE);
      && (sc.Err? ==> RewriteLayer(cfg, layer, previousE) == Err(sc.error))
      && (sc.Ok? ==> RewriteLayer(cfg, layer, previousE) == Ok((JoinLines(sc.value.out), sc.value.previousE)))
  {
  }

  /** The line handler of the rewriter applies `StepLine`. */
  lemma RewriterStep(cfg: Config, st: LineState, previousE: real, line: string)
    ensures LineRewriter(cfg)(st, previousE, line) == StepLine(cfg, st, previousE, line)
  {
  }

  /** A rewritten layer is the newline-join of exactly as many texts as the
      layer had lines, one per line. */
  lemma LayerShape(cfg: Config, layer: string, previousE: real)
    requires RewriteLayer(cfg, layer, previousE).Ok?
    ensures exists out: seq<string> ::
      |out| == |SplitLines(layer)| && RewriteLayer(cfg, layer, previousE).value.0 == JoinLines(out)
  {
    var out := ScanLines(LineRewriter(cfg), SplitLines(layer), previousE).value.out;
    assert |out| == |SplitLines(layer)| && RewriteLayer(cfg, layer, previousE).value.0 == JoinLines(out);
  }

  // ---------------------------------------------------------------------
  // What the state machine means
  // ---------------------------------------------------------------------

  /** A line that opens or closes a bridge region. */
  predicate IsMarker(line: string) {
    IsBeginBridge(line) || IsEndBridge(line)
  }

  /** The index of the last line that opens or closes a bridge region, if any. */
  function LastMarker(lines: seq<string>): (r: Option<nat>)
    ensures r.None? ==> forall i :: 0 <= i < |lines| ==> !IsMarker(lines[i])
    ensures r.Some? ==> r.value < |lines| && IsMarker(lines[r.value])
    ensures r.Some? ==> forall i :: r.value < i < |lines| ==> !IsMarker(lines[i])
  {
    if |lines| == 0 then None
    else if IsMarker(lines[|lines| - 1]) then Some(|lines| - 1)
    else
      var pre := lines[..|lines| - 1];
      var r := LastMarker(pre);
      assert forall i :: 0 <= i < |lines| - 1 ==> pre[i] == lines[i];
      r
  }

  /** After some lines the flag is set exactly when the last marker seen is a
      `;BRIDGE` line. */
  lemma {:induction false} BridgeFlagMeaning(lines: seq<string>)
    ensures StateAfter(lines).isBridge <==> LastMarker(lines).Some? && IsBeginBridge(lines[LastMarker(lines).value])
  {
    if |lines| > 0 {
      var n := |lines|;
      var pre := lines[..n - 1];
      BridgeFlagMeaning(pre);
      MarkersExclusive(lines[n - 1]);
      if !IsMarker(lines[n - 1]) && LastMarker(pre).Some? {
        assert pre[LastMarker(pre).value] == lines[LastMarker(pre).value];
      }
    }
  }

  /** Line `j` is the last line naming a type: a line starting with `;TYPE`
      whose text after the sixth character is not `none`. */
  predicate LastTypeAt(lines: seq<string>, j: int) {
    0 <= j < |lines| && GetType(lines[j]) != "none" && forall i :: j < i < |lines| ==> GetType(lines[i]) == "none"
  }

  /** The current type is the one named by the last line naming a type (a
      `;TYPE` line whose type reads `none` keeps the type before it), and
      `initial` before any. */
  lemma {:induction false} CurrentTypeMeaning(lines: seq<string>)
    ensures (forall j :: 0 <= j < |lines| ==> GetType(lines[j]) == "none") ==> StateAfter(lines).currentType == "initial"
    ensures forall j :: LastTypeAt(lines, j) ==> StateAfter(lines).currentType == GetType(lines[j])
  {
    if |lines| > 0 {
      var n := |lines|;
      var pre, last := lines[..n - 1], lines[n - 1];
      CurrentTypeMeaning(pre);
      assert forall j :: 0 <= j < n - 1 ==> pre[j] == lines[j];
      forall j | LastTypeAt(lines, j) ensures StateAfter(lines).currentType == GetType(lines[j]) {
        if j < n - 1 {
          assert LastTypeAt(pre, j);
        }
      }
    }
  }

  /** No line is an extrusion move. */
  predicate NoMoves(lines: seq<string>) {
    forall k :: 0 <= k < |lines| ==> !IsExtrusionLine(lines[k])
  }

  /** The index of the last extrusion move, if there is one. */
  function LastMove(lines: seq<string>): (r: Option<nat>)
    ensures r.None? ==> NoMoves(lines)
    ensures r.Some? ==> r.value < |lines| && IsExtrusionLine(lines[r.value])
    ensures r.Some? ==> forall i :: r.value < i < |lines| ==> !IsExtrusionLine(lines[i])
  {
    if |lines| == 0 then None
    else if IsExtrusionLine(lines[|lines| - 1]) then Some(|lines| - 1)
    else
      var pre := lines[..|lines| - 1];
      var r := LastMove(pre);
      assert forall i :: 0 <= i < |lines| - 1 ==> pre[i] == lines[i];
      r
  }

  /** A line handler that sets the reading from every extrusion move and
      keeps it on every other line. */
  ghost predicate ReadingRule(step: LineFn) {
    forall st: LineState, pe: real, line: string :: step(st, pe, line).Ok? ==>
      && (IsExtrusionLine(line) ==> EReading(line) == Ok(step(st, pe, line).value.previousE))
      && (!IsExtrusionLine(line) ==> step(st, pe, line).value.previousE == pe)
  }

  /** The rewriter's line handler follows that rule. */
  lemma RewriterReadingRule(cfg: Config)
    ensures ReadingRule(LineRewriter(cfg))
  {
    forall st: LineState, pe: real, line: string | LineRewriter(cfg)(st, pe, line).Ok?
      ensures IsExtrusionLine(line) ==> EReading(line) == Ok(LineRewriter(cfg)(st, pe, line).value.previousE)
      ensures !IsExtrusionLine(line) ==> LineRewriter(cfg)(st, pe, line).value.previousE == pe
    {
      StepLineMeaning(cfg, st, pe, line);
    }
  }

  /** Under that rule the reading after some lines is the reading of the last
      extrusion move, and the carried-in value when there is none. */
  lemma {:induction false} ScanReading(step: LineFn, lines: seq<string>, previousE: real)
    requires ReadingRule(step) && ScanLines(step, lines, previousE).Ok?
    ensures LastMove(lines).None? ==> ScanLines(step, lines, previousE).value.previousE == previousE
    ensures LastMove(lines).Some? ==>
      EReading(lines[LastMove(lines).value]) == Ok(ScanLines(step, lines, previousE).value.previousE)
  {
    if |lines| > 0 {
      var n := |lines|;
      var pre, last := lines[..n - 1], lines[n - 1];
      ScanStep(step, lines, previousE);
      ScanReading(step, pre, previousE);
      var sc := ScanLines(step, pre, previousE).value;
      assert ScanLines(step, lines, previousE).value.previousE == step(sc.st, sc.previousE, last).value.previousE;
      if !IsExtrusionLine(last) && LastMove(pre).Some? {
        assert pre[LastMove(pre).value] == lines[LastMove(pre).value];
      }
    }
  }

  /** The remembered extrusion reading is the reading of the last extrusion
      move of the layer, whether or not that move was rewritten, and the
      carried-in value when there is none. */
  lemma PreviousEMeaning(cfg: Config, lines: seq<string>, previousE: real)
    requires ScanLines(LineRewriter(cfg), lines, previousE).Ok?
    ensures LastMove(lines).None? ==> ScanLines(LineRewriter(cfg), lines, previousE).value.previousE == previousE
    ensures LastMove(lines).Some? ==>
      EReading(lines[LastMove(lines).value]) == Ok(ScanLines(LineRewriter(cfg), lines, previousE).value.previousE)
  {
    RewriterReadingRule(cfg);
    ScanReading(LineRewriter(cfg), lines, previousE);
  }

  /** A successful scan of some lines extends the scan of all but the last
      by the outcome of the last. */
  lemma ScanStep(step: LineFn, lines: seq<string>, previousE: real)
    requires |lines| > 0 && ScanLines(step, lines, previousE).Ok?
    ensures var sc := ScanLines(step, lines[..|lines| - 1], previousE);
      && sc.Ok?
      && var r := step(sc.value.st, sc.value.previousE, lines[|lines| - 1]);
      && r.Ok?
      && ScanLines(step, lines, previousE).value == Scan(sc.value.out + [r.value.text], r.value.st, r.value.previousE)
  {
  }

  /** A successful scan of some lines also scans each prefix, producing the
      corresponding prefix of the output. */
  lemma {:induction false} ScanPrefix(step: LineFn, lines: seq<string>, previousE: real, k: nat)
    requires ScanLines(step, lines, previousE).Ok? && k <= |lines|
    ensures ScanLines(step, lines[..k], previousE).Ok?
    ensures ScanLines(step, lines[..k], previousE).value.out == ScanLines(step, lines, previousE).value.out[..k]
    decreases |lines|
  {
    if k < |lines| {
      var pre := lines[..|lines| - 1];
      ScanPrefix(step, pre, previousE, k);
      assert pre[..k] == lines[..k];
    } else {
      assert lines[..k] == lines;
    }
  }

  /** Line `k` of a successful scan is what the handler made of it, given the
      state and reading left by the lines before it. */
  lemma ScanAt(step: LineFn, lines: seq<string>, previousE: real, k: nat)
    requires ScanLines(step, lines, previousE).Ok? && k < |lines|
    ensures var sc := ScanLines(step, lines[..k], previousE);
      && sc.Ok?
      && var r := step(sc.value.st, sc.value.previousE, lines[k]);
      && r.Ok?
      && r.value.text == ScanLines(step, lines, previousE).value.out[k]
  {
    ScanPrefix(step, lines, previousE, k + 1);
    var p := lines[..k + 1];
    assert p[..k] == lines[..k];
    assert p[k] == lines[k];
    ScanStep(step, p, previousE);
  }

  /** What each line of a layer becomes: a qualifying move the bridge block
      built with the reading remembered so far, any other line itself followed
      by its annotation. */
  lemma LineOutput(cfg: Config, lines: seq<string>, previousE: real, k: nat)
    requires ScanLines(LineRewriter(cfg), lines, previousE).Ok? && k < |lines|
    ensures ScanLines(LineRewriter(cfg), lines[..k], previousE).Ok?
    ensures var out := ScanLines(LineRewriter(cfg), lines, previousE).value.out;
      var before := StateAfter(lines[..k]);
      var pe := ScanLines(LineRewriter(cfg), lines[..k], previousE).value.previousE;
      (Qualifies(Next(before, lines[k]), lines[k]) ==> BridgeBlock(cfg, lines[k], pe) == Ok(out[k])) &&
      (!Qualifies(Next(before, lines[k]), lines[k]) ==> out[k] == lines[k] + Annotation(before, lines[k]))
  {
    var f := LineRewriter(cfg);
    ScanAt(f, lines, previousE, k);
    ScanState(cfg, lines[..k], previousE);
    StepLineMeaning(cfg, StateAfter(lines[..k]), ScanLines(f, lines[..k], previousE).value.previousE, lines[k]);
  }

  /** A `;BRIDGE` line inside an open region gets no second `;START_BRIDGE`,
      and an end marker outside a region gets no `;END_BRIDGE`. */
  lemma MarkersNotRepeated(st: LineState, line: string)
    ensures st.isBridge && IsBeginBridge(line) ==> Annotation(st, line) == ""
    ensures !st.isBridge && IsEndBridge(line) ==> Annotation(st, line) == ""
  {
    MarkersExclusive(line);
  }

  /** No line opens a bridge region. */
  predicate NoBegin(lines: seq<string>) {
    forall k :: 0 <= k < |lines| ==> !IsBeginBridge(lines[k])
  }

  /** A layer without any `;BRIDGE` line comes out exactly as it went in. */
  lemma LayerWithoutBridgeUnchanged(cfg: Config, layer: string, previousE: real)
    requires RewriteLayer(cfg, layer, previousE).Ok?
    requires NoBegin(SplitLines(layer))
    ensures RewriteLayer(cfg, layer, previousE).value.0 == layer
  {
    var lines := SplitLines(layer);
    JoinSplitLines(layer);
    var out := ScanLines(LineRewriter(cfg), lines, previousE).value.out;
    forall k | 0 <= k < |lines| ensures out[k] == lines[k] {
      LineOutput(cfg, lines, previousE, k);
      BridgeFlagMeaning(lines[..k]);
      var m := LastMarker(lines[..k]);
      if m.Some? {
        assert lines[..k][m.value] == lines[m.value];
      }
    }
    assert out == lines;
  }

  // ---------------------------------------------------------------------
  // The outer loop over the layers
  // ---------------------------------------------------------------------

  /** The list of layers after the first `n` iterations of the outer loop, the
      reading carried forward and the error that stopped it, if any. */
  datatype Progress = Progress(layers: seq<string>, previousE: real, failure: Option<Error>)

  /** A handler for one layer: from its text and the reading carried in, to
      its new text and the reading carried out. */
  type LayerFn = (string, real) -> Result<(string, real), Error>

  /** The layer handler of the rewriter with settings `cfg`. */
  function LayerRewriter(cfg: Config): LayerFn {
    (layer: string, previousE: real) => RewriteLayer(cfg, layer, previousE)
  }

  /** The first `n` iterations: each rewritten layer is stored back in its
      slot; an error leaves that slot and all later ones as they were. The
      reading starts at 0 and is carried from layer to layer. */
  function RunLayers(rewrite: LayerFn, layers: seq<string>, n: nat): (r: Progress)
    requires n <= |layers|
    ensures |r.layers| == |layers|
    ensures forall i :: n <= i < |layers| ==> r.layers[i] == layers[i]
  {
    if n == 0 then Progress(layers, 0.0, None)
    else
      var before := RunLayers(rewrite, layers, n - 1);
      if before.failure.Some? then before
      else match rewrite(layers[n - 1], before.previousE)
        case Err(e) => Progress(before.layers, before.previousE, Some(e))
        case Ok((text, pe)) => Progress(before.layers[n - 1 := text], pe, None)
  }

  /** The whole rewrite of a list of layers. */
  function Rewrite(cfg: Config, layers: seq<string>): Progress
  {
    RunLayers(LayerRewriter(cfg), layers, |layers|)
  }

  /** Iteration `k + 1` after `k` good ones: the layer's outcome decides it. */
  lemma RunStep(rewrite: LayerFn, layers: seq<string>, k: nat)
    requires k < |layers| && RunLayers(rewrite, layers, k).failure.None?
    ensures var before := RunLayers(rewrite, layers, k);
      var r := rewrite(layers[k], before.previousE);
      && (r.Err? ==> RunLayers(rewrite, layers, k + 1) == Progress(before.layers, before.previousE, Some(r.error)))
      && (r.Ok? ==> RunLayers(rewrite, layers, k + 1) == Progress(before.layers[k := r.value.0], r.value.1, None))
  {
  }

  /** Once an iteration fails, the later ones change nothing. */
  lemma {:induction false} FailureSticks(rewrite: LayerFn, layers: seq<string>, n: nat, m: nat)
    requires n <= m <= |layers| && RunLayers(rewrite, layers, n).failure.Some?
    ensures RunLayers(rewrite, layers, m) == RunLayers(rewrite, layers, n)
    decreases m
  {
    if n < m {
      FailureSticks(rewrite, layers, n, m - 1);
    }
  }

  /** Without an error, slot `i` holds the rewrite of layer `i` made with the
      reading carried out of the layers before it. */
  lemma {:induction false} LayerSlots(rewrite: LayerFn, layers: seq<string>, n: nat, i: nat)
    requires n <= |layers| && i < n && RunLayers(rewrite, layers, n).failure.None?
    ensures RunLayers(rewrite, layers, i).failure.None?
    ensures rewrite(layers[i], RunLayers(rewrite, layers, i).previousE)
      == Ok((RunLayers(rewrite, layers, n).layers[i], RunLayers(rewrite, layers, i + 1).previousE))
    decreases n
  {
    if i < n - 1 {
      LayerSlots(rewrite, layers, n - 1, i);
    }
  }

  /** With an error, some layer `k` failed after every earlier one succeeded;
      slot `k` and every later slot still hold the input. */
  lemma {:induction false} FailedRun(rewrite: LayerFn, layers: seq<string>, n: nat)
    requires n <= |layers| && RunLayers(rewrite, layers, n).failure.Some?
    ensures exists k :: (0 <= k < n && RunLayers(rewrite, layers, k).failure.None?
                         && rewrite(layers[k], RunLayers(rewrite, layers, k).previousE)
                              == Err(RunLayers(rewrite, layers, n).failure.value)
                         && RunLayers(rewrite, layers, n).layers[k..] == layers[k..])
    decreases n
  {
    var before := RunLayers(rewrite, layers, n - 1);
    if before.failure.Some? {
      FailedRun(rewrite, layers, n - 1);
    } else {
      assert RunLayers(rewrite, layers, n).layers[n - 1..] == layers[n - 1..];
    }
  }

  /** A layer without extrusion moves hands the reading it received on to the
      next layer unchanged. */
  lemma ReadingCarriedOver(cfg: Config, layers: seq<string>, n: nat)
    requires 0 < n <= |layers| && RunLayers(LayerRewriter(cfg), layers, n).failure.None?
    requires LastMove(SplitLines(layers[n - 1])).None?
    ensures RunLayers(LayerRewriter(cfg), layers, n).previousE == RunLayers(LayerRewriter(cfg), layers, n - 1).previousE
  {
    PreviousEMeaning(cfg, SplitLines(layers[n - 1]), RunLayers(LayerRewriter(cfg), layers, n - 1).previousE);
  }

  /** One more successful line extends the scan by that line's outcome. */
  lemma ScanExtend(step: LineFn, lines: seq<string>, previousE: real, i: nat)
    requires i < |lines| && ScanLines(step, lines[..i], previousE).Ok?
    requires var sc := ScanLines(step, lines[..i], previousE).value; step(sc.st, sc.previousE, lines[i]).Ok?
    ensures var sc := ScanLines(step, lines[..i], previousE).value;
      var r := step(sc.st, sc.previousE, lines[i]).value;
      && ScanLines(step, lines[..i + 1], previousE).Ok?
      && ScanLines(step, lines[..i + 1], previousE).value == Scan(sc.out + [r.text], r.st, r.previousE)
  {
    assert lines[..i + 1][..i] == lines[..i];
  }

  /** The inner loop fails as soon as one line fails. */
  lemma {:induction false} ScanFailure(step: LineFn, lines: seq<string>, previousE: real, i: nat, e: Error)
    requires i < |lines| && ScanLines(step, lines[..i], previousE).Ok?
    requires step(ScanLines(step, lines[..i], previousE).value.st, ScanLines(step, lines[..i], previousE).value.previousE, lines[i]) == Err(e)
    ensures ScanLines(step, lines, previousE) == Err(e)
    decreases |lines|
  {
    if i == |lines| - 1 {
      assert lines[..|lines| - 1] == lines[..i];
    } else {
      var pre := lines[..|lines| - 1];
      assert pre[..i] == lines[..i];
      ScanFailure(step, pre, previousE, i, e);
    }
  }
}
