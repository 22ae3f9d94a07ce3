/** The post-processing pass itself, written as the source writes it: a loop
    over the layers stored back into the list it was given, and inside it a
    loop over each layer's lines that keeps the bridge flag, the current type
    and the last extrusion reading in local variables. Each method is proved
    against the functions of `Bridges`. */
module Rewriter {
  import opened Wrappers
  import opened Text
  import opened Numbers
  import opened Classify
  import opened Bridges

  /** Appending the four newline-led lines one after the other builds the
      move block after what came before. */
  lemma AppendedBlock(before: string, a: string, b: string, c: string, d: string)
    ensures before + ("\n" + a) + ("\n" + b) + ("\n" + c) + ("\n" + d)
      == before + ("\n" + (a + ("\n" + (b + ("\n" + (c + ("\n" + d)))))))
  {
  }

  /** The speed part of the move rewrite: `new_F` is bound by `set_speed`, then rebound by
      `mul_speed`; it stays unbound when neither is on. */
  method ChooseSpeed(cfg: Config, currentF: real) returns (newF: real, bound: bool)
    ensures bound <==> NewSpeed(cfg, currentF).Ok?
    ensures bound ==> newF == NewSpeed(cfg, currentF).value
  {
    newF, bound := 0.0, false;
    if cfg.setSpeed {
      newF, bound := cfg.newSpeed as real, true;
    }
    if cfg.mulSpeed {
      newF, bound := currentF * SpeedFactor(cfg), true;
    }
  }

  /** The flow part of the move rewrite: `new_E` is bound by `set_flow`, then rebound by
      `mul_flow` from the difference with the previous reading. */
  method ChooseFlow(cfg: Config, currentE: real, previousE: real) returns (newE: real, bound: bool)
    ensures bound <==> NewFlow(cfg, currentE, previousE).Ok?
    ensures bound ==> newE == NewFlow(cfg, currentE, previousE).value
  {
    newE, bound := 0.0, false;
    if cfg.setFlow {
      newE, bound := cfg.newFlow, true;
    }
    if cfg.mulFlow {
      var deltaE := currentE - previousE;
      newE, bound := deltaE * FlowFactor(cfg), true;
    }
  }

  /** The rewrite of the move of a qualifying line holding an `F` and an `E`:
      the speed and the extrusion read from their captures, the new values
      chosen by the switches, and both substitutions made; or the first error
      on the way. */
  method RewriteMove(cfg: Config, line: string, previousE: real)
    returns (moved: string, oldE: string, failure: Option<Error>)
    requires 'F' in line && 'E' in line
    ensures failure.Some? <==> PlanEdit(cfg, line, previousE).Err?
    ensures failure.Some? ==> failure.value == PlanEdit(cfg, line, previousE).error
    ensures failure.None? ==>
      moved == Apply(PlanEdit(cfg, line, previousE).value, line) && oldE == PlanEdit(cfg, line, previousE).value.oldE
  {
    var groupF := Capture(line, 'F').value;
    var groupE := Capture(line, 'E').value;
    moved, oldE := "", "";

    var oldF := "F" + groupF;
    var readF := ReadNumber(groupF);
    if readF.Err? {
      return moved, oldE, Some(readF.error);
    }
    var newF, boundF := ChooseSpeed(cfg, readF.value);
    if !boundF {
      return moved, oldE, Some(SpeedUnbound);
    }
    var newFText := "F" + Fixed(newF, 0);

    oldE := "E" + groupE;
    var readE := ReadNumber(groupE);
    if readE.Err? {
      return moved, oldE, Some(readE.error);
    }
    var newE, boundE := ChooseFlow(cfg, readE.value, previousE);
    if !boundE {
      return moved, oldE, Some(FlowUnbound);
    }
    var newEText := "E" + Fixed(newE, 5);

    moved := ReplaceAll(ReplaceAll(line, oldF, newFText), oldE, newEText);
    failure := None;
  }

  /** The marker and `;TYPE` tests at the top of the inner loop: the bridge
      flag, with the line annotated when the flag changes, and the current
      type. */
  method MarkLine(st: LineState, line: string) returns (text: string, st': LineState)
    ensures st' == Next(st, line)
    ensures text == line + Annotation(st, line)
  {
    var isBridge, currentType := st.isBridge, st.currentType;
    text := line;
    if IsBeginBridge(line) {
      if !isBridge {
        text := text + "\n;START_BRIDGE";
      }
      isBridge := true;
    }
    if IsEndBridge(line) {
      if isBridge {
        text := text + "\n;END_BRIDGE";
      }
      isBridge := false;
    }
    if GetType(line) != "none" {
      currentType := GetType(line);
    }
    st' := LineState(isBridge, currentType);
  }

  /** The body of the `if is_a_bridge and target_type and is_extrusion_line(line)`
      branch: what a qualifying move becomes, the delay followed, when
      the move holds an `F` and an `E`, by the four lines of the move block;
      or the error met on the way. */
  method BuildBlock(cfg: Config, delay: string, line: string, previousE: real)
    returns (text: string, failure: Option<Error>)
    requires delay == DelayInstruction(cfg)
    ensures failure.Some? <==> BridgeBlock(cfg, line, previousE).Err?
    ensures failure.Some? ==> failure.value == BridgeBlock(cfg, line, previousE).error
    ensures failure.None? ==> text == BridgeBlock(cfg, line, previousE).value
  {
    text := delay;
    failure := None;
    if 'F' in line && 'E' in line {
      var moved, oldE, err := RewriteMove(cfg, line, previousE);
      if err.Some? {
        return text, err;
      }
      text := text + ("\n" + RelativeLine);
      text := text + ("\n" + ChangedLine(moved));
      text := text + ("\n" + AbsoluteLine);
      text := text + ("\n" + ResetLine(oldE));
      AppendedBlock(delay, RelativeLine, ChangedLine(moved), AbsoluteLine, ResetLine(oldE));
    }
  }

  /** One iteration of the inner loop: the line with its annotation, or the
      delay and the move block in its place when it qualifies, the new flag
      and type, and the extrusion reading updated from every extrusion move. */
  method RewriteLine(cfg: Config, delay: string, st: LineState, previousE: real, line: string)
    returns (text: string, st': LineState, previousE': real, failure: Option<Error>)
    requires delay == DelayInstruction(cfg)
    ensures failure.Some? <==> StepLine(cfg, st, previousE, line).Err?
    ensures failure.Some? ==> failure.value == StepLine(cfg, st, previousE, line).error
    ensures failure.None? ==> StepLine(cfg, st, previousE, line).value == Step(text, st', previousE')
  {
    StepLineMeaning(cfg, st, previousE, line);
    text, st' := MarkLine(st, line);
    var targetType := st'.currentType == "WALL-OUTER" || st'.currentType == "initial";
    previousE', failure := previousE, None;
    if st'.isBridge && targetType && IsExtrusionLine(line) {
      text, failure := BuildBlock(cfg, delay, line, previousE);
      if failure.Some? {
        return;
      }
    }
    if IsExtrusionLine(line) {
      ExtrusionLineMeaning(line);
      var reading := ReadNumber(Capture(line, 'E').value);
      if reading.Err? {
        return text, st', previousE', Some(reading.error);
      }
      previousE' := reading.value;
    }
  }

  /** `delay_instruction`, built once before the loops. */
  method BuildDelay(cfg: Config) returns (delay: string)
    ensures delay == DelayInstruction(cfg)
  {
    delay := "";
    if cfg.doPauses {
      if cfg.playTone {
        delay := delay + ToneCommand(cfg);
      }
      delay := delay + ("\n" + PauseCommand(cfg));
    }
  }

  /** One iteration of the loop over the layers. The layer is split into
      lines, each line rewritten in turn with the flag and the type reset at
      the start, and the lines joined back; or the first error met. */
  method RewriteLayerText(cfg: Config, delay: string, layer: string, previousE: real)
    returns (result: string, previousE': real, failure: Option<Error>)
    requires delay == DelayInstruction(cfg)
    ensures failure.Some? <==> RewriteLayer(cfg, layer, previousE).Err?
    ensures failure.Some? ==> failure.value == RewriteLayer(cfg, layer, previousE).error
    ensures failure.None? ==> RewriteLayer(cfg, layer, previousE).value == (result, previousE')
  {
    var isBridge, currentType := false, "initial";
    var lines := SplitLines(layer);
    ghost var parts := lines;
    ghost var step := LineRewriter(cfg);
    previousE' := previousE;
    var i := 0;
    assert lines[..0] == [];
    while i < |lines|
      invariant 0 <= i <= |lines| == |parts|
      invariant lines[i..] == parts[i..]
      invariant ScanLines(step, parts[..i], previousE) == Ok(Scan(lines[..i], LineState(isBridge, currentType), previousE'))
    {
      assert lines[i] == parts[i] by { assert lines[i..][0] == parts[i..][0]; }
      var text, st', e, err := RewriteLine(cfg, delay, LineState(isBridge, currentType), previousE', lines[i]);
      RewriterStep(cfg, LineState(isBridge, currentType), previousE', parts[i]);
      if err.Some? {
        ScanFailure(step, parts, previousE, i, err.value);
        return "", previousE', err;
      }
      ScanExtend(step, parts, previousE, i);
      SlotUpdate(lines, i, text);
      lines := lines[i := text];
      isBridge, currentType := st'.isBridge, st'.currentType;
      previousE' := e;
      i := i + 1;
    }
    assert parts[..i] == parts && lines[..i] == lines;
    LayerOfScan(cfg, layer, previousE);
    result := JoinLines(lines);
    failure := None;
  }

  /** Storing `text` at index `i` extends the prefix of the lines handled so
      far and leaves the lines after it as they were. */
  lemma SlotUpdate(lines: seq<string>, i: nat, text: string)
    requires i < |lines|
    ensures lines[i := text][..i + 1] == lines[..i] + [text]
    ensures lines[i := text][i + 1..] == lines[i + 1..]
  {
  }

  /** The `execute` entry point: rewrites every layer of `data` in place.
      When a move cannot be rewritten the pass stops with that error, the
      layers before it already stored and the rest as they were. */
  method Execute(cfg: Config, data: array<string>) returns (failure: Option<Error>)
    modifies data
    ensures data[..] == Rewrite(cfg, old(data[..])).layers
    ensures failure == Rewrite(cfg, old(data[..])).failure
  {
    var delay := BuildDelay(cfg);
    ghost var input := data[..];
    ghost var rewrite := LayerRewriter(cfg);
    var previousE := 0.0;
    var k := 0;
    while k < data.Length
      invariant 0 <= k <= data.Length
      invariant RunLayers(rewrite, input, k).failure.None?
      invariant data[..] == RunLayers(rewrite, input, k).layers
      invariant previousE == RunLayers(rewrite, input, k).previousE
    {
      assert data[k] == input[k];
      var result, e, err := RewriteLayerText(cfg, delay, data[k], previousE);
      assert rewrite(input[k], previousE) == RewriteLayer(cfg, input[k], previousE);
      RunStep(rewrite, input, k);
      if err.Some? {
        FailureSticks(rewrite, input, k + 1, |input|);
        return err;
      }
      data[k] := result;
      previousE := e;
      k := k + 1;
    }
    failure := None;
  }
}
