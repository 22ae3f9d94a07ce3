/** The four line classifiers of the bridge rewriter: prefix and substring
    tests on one line of G-code. */
module Classify {
  import opened Text

  /** A line opening a bridge region: it starts with `;BRIDGE`. */
  predicate IsBeginBridge(line: string) {
    ";BRIDGE" <= line
  }

  /** A line closing a region: it starts with `;MESH`, `;TIME` or `;LAYER`. */
  predicate IsEndBridge(line: string) {
    ";MESH" <= line || ";TIME" <= line || ";LAYER" <= line
  }

  /** An extrusion move, by plain substring containment of `G1`, `X`, `Y` and
      `E` anywhere in the line (so `G10` or a comment mentioning them counts). */
  predicate IsExtrusionLine(line: string) {
    Contains(line, "G1") && 'X' in line && 'Y' in line && 'E' in line
  }

  /** The one-letter tests are Python's substring tests `"X" in line` and the
      like; a move is recognised by `G1` occurring somewhere and the three
      letters being present anywhere, in any order. */
  lemma ExtrusionLineMeaning(line: string)
    ensures IsExtrusionLine(line) <==>
      Contains(line, "G1") && Contains(line, "X") && Contains(line, "Y") && Contains(line, "E")
    ensures IsExtrusionLine(line) <==>
      (exists i :: OccursAt(line, "G1", i)) && 'X' in line && 'Y' in line && 'E' in line
  {
    ContainsChar(line, 'X');
    ContainsChar(line, 'Y');
    ContainsChar(line, 'E');
  }

  /** The region type named by a `;TYPE` line: the text after its first six
      characters (`line[6:]` in Python, so empty for a line of five), and
      `none` for every other line. */
  function GetType(line: string): (r: string)
    ensures ";TYPE" <= line && |line| > 6 ==> line == line[..6] + r
    ensures ";TYPE" <= line && |line| <= 6 ==> r == ""
    ensures !(";TYPE" <= line) ==> r == "none"
  {
    if ";TYPE" <= line then (if |line| < 6 then "" else line[6..]) else "none"
  }

  /** The markers exclude one another: no line both opens and closes a bridge,
      and a `;TYPE` line does neither. */
  lemma MarkersExclusive(line: string)
    ensures !(IsBeginBridge(line) && IsEndBridge(line))
    ensures ";TYPE" <= line ==> !IsBeginBridge(line) && !IsEndBridge(line)
  {
    if IsBeginBridge(line) {
      assert line[1] == 'B';
    }
    if ";TYPE" <= line {
      assert line[1] == 'T' && line[2] == 'Y';
    }
  }
}
