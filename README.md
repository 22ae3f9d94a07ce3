# Advanced Bridges rewriter, modelled in Dafny

Advanced Bridges is a Cura post-processing script. Cura passes it the G-code of a print as a list of layer texts, and the script rewrites that list in place. Inside each layer it follows a small state machine over the lines:

- A `;BRIDGE` line opens a bridge region, and a `;MESH`, `;TIME` or `;LAYER` line closes it. An opening line outside a region gets a `;START_BRIDGE` annotation, and a closing line inside one gets `;END_BRIDGE`. A line that is also rewritten as a move (below) loses its annotation, because the block replaces its text.
- A line starting with `;TYPE` sets the current region type to its text after the sixth character, unless that text is `none`, which keeps the type.
- Every extrusion move (`G1`, `X`, `Y` and `E` all present) inside a bridge, of type `WALL-OUTER` or still `initial`, is replaced by a block:
  1. the delay instruction. Without pauses it is empty, so the block starts with an empty line. With pauses it is an optional tone, then a dwell on the next line; when the tone is off, the first line is empty;
  2. `M83`;
  3. the move with its `F…` and `E…` words replaced by the new speed and flow;
  4. `M82`;
  5. `G92 E…`, restoring the extruder position.
- The new speed is the fixed one or the current speed scaled. The new flow is the fixed one or the extrusion since the previous move, scaled.

The project models this code as written.

- `wrappers.dfy` (`Wrappers`): `Option` and `Result`.
- `text.dfy` (`Text`): the first-occurrence search behind `re.search`, `split` and `in`, and Python's `in`, `split`, `join` and `replace`. Also `split("\n")` and `"\n".join`, with the round trips between them.
- `numbers.dfy` (`Numbers`):
  - the capture of `re.search(letter + r"(\d*\.?\d*)", line)`;
  - `float()` on the text it can capture;
  - `str()` of an integer;
  - `"{:.kf}".format(x)`: rounding half to even on exact reals.
- `classify.dfy` (`Classify`): the four line classifiers.
- `bridges.dfy` (`Bridges`): the specification on values:
  - the settings record;
  - the delay instruction;
  - the new speed and flow;
  - the substitutions and the emitted block;
  - the per-line state machine;
  - one layer, and the run over all layers, stopping at the first error;
  - lemmas about what each of these means.
- `execute.dfy` (`Rewriter`): `execute` itself. It has:
  - a loop over an `array<string>` of layers that stores each rewritten layer back into its slot;
  - an inner loop over the layer's lines that updates the list of lines at the current index;
  - the running variables `is_a_bridge`, `current_type` and `previous_E`;
  - the speed and flow chosen by the same sequence of `if`s that binds `new_F` and `new_E`.

  Every method is proved against the functions of `Bridges`.

Python raises an exception in three cases:
- `float()` refuses a capture;
- `new_F` is used while unbound, because neither speed switch is on;
- `new_E` is used while unbound, because neither flow switch is on.

The model turns each into an `Error` value, checked in the order the source evaluates them. As in the source, the layers already rewritten stay stored, and the failing layer and all later ones are left as they were.

## Model

| member | source | states |
|---|---|---|
| Classify.ExtrusionLineMeaning | AdvancedBridges.py:24-25 | a line is an extrusion move iff `G1` occurs in it and `X`, `Y`, `E` each occur anywhere, the one-letter tests being substring tests |
| Classify.GetType | AdvancedBridges.py:27-31 | a `;TYPE` line yields its text after the sixth character (empty when the line is no longer than six); any other line yields `none` |
| Classify.MarkersExclusive | AdvancedBridges.py:18-22 | no line both opens and closes a bridge region, and a `;TYPE` line does neither |
| Text.Contains | AdvancedBridges.py:25 | `p in s` holds exactly when `p` occurs in `s` at some index |
| Text.ContainsChar | AdvancedBridges.py:25 | substring containment of a one-character string is membership of that character |
| Text.SplitOn | AdvancedBridges.py:291 | splitting yields at least one piece, no piece contains the separator, joining the pieces with the separator gives the text back, and every cut is the leftmost one: no piece followed by a separator holds an occurrence of it, even one running into that separator |
| Text.SplitLinesIsSplit | AdvancedBridges.py:222 | splitting a layer into lines one character at a time is the general `split` with the separator `"\n"` |
| Text.ReplaceAll | AdvancedBridges.py:291 | `replace` brings in no character that is in neither the text nor the replacement |
| Text.ReplaceAllIsJoinOfSplit | AdvancedBridges.py:291 | replacing every occurrence equals joining, with the replacement, the pieces the pattern splits the text into |
| Text.ReplaceAllAbsent | AdvancedBridges.py:291 | a text not containing the pattern is left unchanged by replace |
| Text.SplitLines | AdvancedBridges.py:222 | splitting a layer at its newlines yields at least one line |
| Text.JoinSplitLines | AdvancedBridges.py:309 | joining a layer's lines with newlines restores the layer |
| Text.SplitJoinLines | AdvancedBridges.py:222 | splitting the newline-join of newline-free lines restores those lines |
| Text.SplitLinesNoNewline | AdvancedBridges.py:222 | no line of a split layer contains a newline |
| Text.FourLines | AdvancedBridges.py:285-299 | four newline-free texts joined by newlines split into exactly those four lines |
| Numbers.Capture | AdvancedBridges.py:252-253 | the search for a letter followed by `\d*\.?\d*` succeeds exactly when the letter occurs in the line |
| Numbers.CaptureMeaning | AdvancedBridges.py:252-253 | the group captured after a letter is decimal text (digits with at most one point), follows the first occurrence of the letter in the line, and is the longest such text there: the next character, if any, is no digit, and no point unless the group has one |
| Numbers.NumberPrefix | AdvancedBridges.py:252-253 | the greedy group `\d*\.?\d*` is a prefix of the text after the letter, is decimal text, and stops before a character that could extend it |
| Numbers.DropFirst | AdvancedBridges.py:259 | `group[1:]` is empty for an empty group, and otherwise the group without its first character; it keeps decimal text decimal |
| Numbers.ParseDecimal | AdvancedBridges.py:259 | `float()` accepts only decimal text (digits with at most one point) holding a digit, and never reads a negative value |
| Numbers.ParseDecimalDefined | AdvancedBridges.py:259 | `float()` of decimal text succeeds exactly when the text has a digit |
| Numbers.FirstCharacterDropped | AdvancedBridges.py:259 | examples of the first captured character being dropped: the capture of `F1200` reads as 200, that of `E2.0` as 0, and a one-character capture cannot be read (the general statement is Bridges.ReadNumberMeaning) |
| Numbers.IntToString | AdvancedBridges.py:211-212 | `str()` of an integer is the canonical decimal digits of its magnitude (at least one, no leading `0` unless the number is 0), after a `-` when it is negative, and holds no newline |
| Numbers.RoundHalfEven | AdvancedBridges.py:267 | the chosen integer is within one half of the value, and ties go to the even neighbour |
| Numbers.Rounded | AdvancedBridges.py:280 | the magnitude scaled by 10^k is rounded to within one half unit, ties to even |
| Numbers.Fixed | AdvancedBridges.py:267 | `"{:.kf}"` writes only digits, `.` and `-` |
| Numbers.FixedReadsBack | AdvancedBridges.py:280 | `"{:.kf}"` text starts with `-` exactly for a negative value; then come the whole part in canonical digits (no leading `0` unless it is 0) and, when k > 0, a single `.` and exactly k digits, with no `.` when k = 0; and these digits read back as the rounded magnitude over 10^k |
| Bridges.DelayLines | AdvancedBridges.py:207-212 | the delay instruction is nothing without pauses; with pauses it is a tone line (empty when the tone is off) and the dwell line |
| Bridges.ReadNumberMeaning | AdvancedBridges.py:304 | a reading is the value of the capture without its first character; it fails, naming that text, exactly when that text has no digit |
| Bridges.NewSpeed | AdvancedBridges.py:261-267 | `mul_speed` wins with the scaled current speed; otherwise `set_speed` gives the fixed speed; with neither on the speed is unbound, which is an error |
| Bridges.NewFlow | AdvancedBridges.py:273-280 | `mul_flow` wins with the scaled difference from the previous reading; otherwise `set_flow` gives the fixed flow; with neither on the flow is unbound, which is an error |
| Bridges.PlanEditMeaning | AdvancedBridges.py:256-280 | the substitutions fail at the first of: speed capture not a number, no speed switch, extrusion capture not a number, no flow switch. Otherwise the old words are the letters with their whole captures. Each new word is its letter, then a `-` exactly when the new value is negative, then canonical digits: no decimals for the speed, exactly five for the flow. `float()` reads these digits back as the new speed rounded to a whole number and the new flow rounded to five decimals |
| Bridges.ApplyMeaning | AdvancedBridges.py:291 | the move is split at every leftmost occurrence of the old speed word and joined with the new one; that text is then split at the old extrusion word and joined with the new one |
| Bridges.BlockLines | AdvancedBridges.py:247-299 | as lines, a rewritten move is the delay's lines, `M83`, the substituted move marked `; FLOW CHANGED`, `M82`, and `G92` with the old extrusion word |
| Bridges.Next | AdvancedBridges.py:227-240 | after a line the flag is set iff it opens a region, or the flag was set and it does not close one; a `;TYPE` line whose type is not `none` replaces the current type, and any other line keeps it |
| Bridges.Annotation | AdvancedBridges.py:227-237 | the annotation computed for a line is `;START_BRIDGE` exactly for an opening line outside a region, `;END_BRIDGE` exactly for a closing line inside one, and nothing for any other line. A line rewritten as a move loses it, because its block replaces the text (Bridges.LineOutput) |
| Bridges.MarkersNotRepeated | AdvancedBridges.py:227-237 | a repeated `;BRIDGE` and a closing line outside a region get no annotation |
| Bridges.ScanLines | AdvancedBridges.py:222-223 | a rewritten layer has as many output texts as input lines |
| Bridges.ScanState | AdvancedBridges.py:219-240 | the flag and type kept by the inner loop are those obtained from the start-of-layer state by the lines read so far |
| Bridges.LayerShape | AdvancedBridges.py:222-310 | a rewritten layer is the newline-join of exactly one text per input line |
| Bridges.LastMarker | AdvancedBridges.py:227-237 | the index found is that of a line opening or closing a region with none after it, and with no index there is no such line |
| Bridges.BridgeFlagMeaning | AdvancedBridges.py:219-237 | after some lines of a layer the flag is set iff the last opening or closing line seen opens a region |
| Bridges.CurrentTypeMeaning | AdvancedBridges.py:220-240 | the current type is that of the last `;TYPE` line of the layer so far whose type is not `none`, and `initial` before any such line |
| Bridges.LastMove | AdvancedBridges.py:303-304 | the index found is that of an extrusion move with none after it, and with no index there is no extrusion move |
| Bridges.PreviousEMeaning | AdvancedBridges.py:303-304 | after a layer the reading is that of its last extrusion move, or the reading it received when it has none |
| Bridges.LineOutput | AdvancedBridges.py:245-304 | line k of a layer becomes the bridge block built with the reading left by the lines before it, when it qualifies in the state after reading it; otherwise it keeps its text plus its annotation |
| Bridges.LayerWithoutBridgeUnchanged | AdvancedBridges.py:218-310 | a layer without a `;BRIDGE` line is left exactly as it was |
| Bridges.RunLayers | AdvancedBridges.py:218-310 | the list keeps its length and layers not yet reached are untouched |
| Bridges.FailureSticks | AdvancedBridges.py:218-310 | once a layer fails, later iterations change nothing |
| Bridges.LayerSlots | AdvancedBridges.py:214-310 | in a run without error, slot i holds layer i rewritten with the reading carried out of the layers before it, starting from 0 |
| Bridges.FailedRun | AdvancedBridges.py:218-310 | in a run with an error, some layer k failed after every earlier one succeeded, and slot k and every later slot still hold the input |
| Bridges.ReadingCarriedOver | AdvancedBridges.py:303-304 | a layer without extrusion moves passes the reading it received to the next layer unchanged |
| Bridges.ScanFailure | AdvancedBridges.py:223-304 | the inner loop fails with the error of the first line that fails |
| Rewriter.ChooseSpeed | AdvancedBridges.py:261-267 | the speed assigned by the two `if`s is bound exactly when the speed specification gives one, and is that value |
| Rewriter.ChooseFlow | AdvancedBridges.py:273-280 | the flow assigned by the two `if`s is bound exactly when the flow specification gives one, and is that value |
| Rewriter.RewriteMove | AdvancedBridges.py:256-291 | the imperative captures, readings and substitutions fail exactly when the planned substitutions do, with the same error; otherwise they produce the substituted move and the old extrusion word |
| Rewriter.MarkLine | AdvancedBridges.py:227-240 | the imperative flag and type updates give the next state, and the line plus its annotation |
| Rewriter.BuildBlock | AdvancedBridges.py:247-299 | the text built by successive appends is the bridge block, or the block's error |
| Rewriter.RewriteLine | AdvancedBridges.py:227-304 | one iteration of the inner loop yields the line's outcome given by the state machine, or its error |
| Rewriter.BuildDelay | AdvancedBridges.py:207-212 | the delay built by appends is the delay instruction |
| Rewriter.RewriteLayerText | AdvancedBridges.py:219-310 | the inner loop over the mutable list of lines yields the rewritten layer and the reading carried out, or the layer's error |
| Rewriter.Execute | AdvancedBridges.py:185-312 | after the run the array holds the layers of the whole rewrite, and the error reported is the rewrite's error, if any |

## Left out

- Host glue is not modelled: the `Script` base class, `getSettingValueByKey`, the `Logger`/`Application` imports and the JSON settings schema (`getSettingDataString`). The settings become a `Config` record passed to `Execute`.
- Retraction: `use_retract` and `retract_value` are read into `Config` but never used, as in the source. No retraction command is emitted.
- `searchX`/`searchY` are computed but unused in the source; the model leaves them out.
- Floating point: numbers are exact reals. `float()`, the subtraction and the multiplications do not round. `"{:.kf}"` rounds the exact value half to even, whereas Python formats the nearest binary double, so results can differ on values that doubles cannot represent.
- `\d` in the capture is restricted to ASCII digits. Python's `str` patterns also match other Unicode decimal digits, and `float()` accepts them.
- `float()` is modelled on the text the capture can produce: digits with at most one point. Its handling of signs, exponents, whitespace, `inf` and `nan` is not needed and is left out.
- `new_F` and `new_E` are function-level variables in the source and persist across iterations. The switches never change during a run, so either they are bound afresh on every rewritten move or never bound at all. The model therefore binds them per move, and raises an error when they are unbound.
- In four places the code does something other than what a reader of its settings might expect, and the model follows the code:
  - no retraction is emitted, although the `use_retract` setting is described as retracting the filament before a bridge (AdvancedBridges.py:164-167);
  - with both speed switches off (or both flow switches off), the run stops with an exception rather than keeping the move's own value;
  - every number is read with its first captured character dropped;
  - a move without `F` is reduced to the delay alone and the move is lost.
- Fixed: its own contract states only which characters it writes. Its sign, shape and value are stated by Numbers.FixedReadsBack.
- ReplaceAll: its own contract states only that no new character appears. What it replaces is stated by Text.ReplaceAllIsJoinOfSplit, and what it leaves alone by Text.ReplaceAllAbsent.
- SplitLines: its own contract states only that there is at least one line. The lines are stated by Text.SplitLinesIsSplit (the general `split`), Text.JoinSplitLines, Text.SplitLinesNoNewline and Text.SplitJoinLines.
