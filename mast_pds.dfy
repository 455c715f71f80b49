/**
 * MastPDSMetadata: the reader of a MAST camera's detached PDS3 label.  The label is
 * read line by line; `KEY = VALUE` lines are filed in a metadata tree, at the top
 * level ("PDS") or under the GROUP or OBJECT that encloses them, and a value may go
 * on over following lines that hold no `=`.  The camera's field of view, pointing,
 * sub-image, first sample, detector size and instrument are then read from the tree.
 *
 * The file is its sequence of lines, read through a cursor with BufferedReader's
 * mark and reset.  The tree (a class outside this model) is the list of
 * (node, key, value) entries in the order they were added; a lookup takes the last
 * matching entry.  Double.valueOf is a parameter.
 */
module MastPds {
  import opened Wrappers
  import opened JavaNumerics
  import opened JavaStrings
  import opened PixelFrame

  const PDS_ROOT: string := "PDS"
  const PDS_GROUP: string := "GROUP"
  const PDS_END_GROUP: string := "END_GROUP"
  const PDS_OBJECT: string := "OBJECT"
  const PDS_END_OBJECT: string := "END_OBJECT"
  const PDS_END: string := "END"
  const PDS_RSM_ARTICULATION_STATE_PARMS: string := "RSM_ARTICULATION_STATE_PARMS"
  const PDS_ARTICULATION_DEVICE_ANGLE: string := "ARTICULATION_DEVICE_ANGLE"
  const PDS_INSTRUMENT_STATE_PARMS: string := "INSTRUMENT_STATE_PARMS"
  const PDS_HORIZONTAL_FOV: string := "HORIZONTAL_FOV"
  const PDS_VERTICAL_FOV: string := "VERTICAL_FOV"
  const PDS_IMAGE_REQUEST_PARMS: string := "IMAGE_REQUEST_PARMS"
  const PDS_LINES: string := "LINES"
  const PDS_LINE_SAMPLES: string := "LINE_SAMPLES"
  const PDS_DETECTOR_LINES: string := "DETECTOR_LINES"
  const MSL_DETECTOR_SAMPLES: string := "MSL:DETECTOR_SAMPLES"
  const PDS_FIRST_LINE_SAMPLE: string := "FIRST_LINE_SAMPLE"
  const PDS_FIRST_LINE: string := "FIRST_LINE"
  const PDS_INSTRUMENT_ID: string := "INSTRUMENT_ID"
  /** The unit suffix stripped from the articulation angles. */
  const RAD_UNIT: string := " <rad>"

  /** The detector's pixel size. */
  const PIXEL_SIZE: Vec2 := Vec2(0.0074, 0.0074)

  /** The lens distortion coefficients of the two mast cameras. */
  const DISTORTION_COEFF: map<string, seq<real>> :=
    map["MAST_LEFT" := [-0.113876, 0.152029, -1.118977e-04, -1.023513e-06, 0.0],
        "MAST_RIGHT" := [0.262451, -0.250667, 1.513695e-04, 0.0, 0.0]]

  /** A value in the metadata tree: a string, or the String[] of a parenthesised list. */
  datatype PdsValue = Text(text: string) | Values(items: seq<string>)

  /** One leaf of the metadata tree: `key = value` under the node `node`. */
  datatype Entry = Entry(node: string, key: string, value: PdsValue)

  /** The two halves parseKeyword returns. */
  datatype KeyValue = KeyValue(key: string, value: string)

  /** A result read from the label, with the index of the first line not consumed. */
  datatype Parsed<T> = Parsed(value: T, next: nat)

  /** The label file of an image: every "png" in its path becomes "LBL". */
  function LabelPath(path: string): string {
    Replace(path, "png", "LBL")
  }

  /** ".png" becomes ".LBL", and so does every "png" before it. */
  lemma LabelPathOfPng(u: string)
    ensures LabelPath(u + ".png") == Replace(u, "png", "LBL") + ".LBL"
    ensures !Contains(u, "png") ==> LabelPath(u + ".png") == u + ".LBL"
  {
    var png, lbl := "png", "LBL";
    assert u + ".png" == u + ['.'] + png;
    assert Replace(u, png, lbl) + ".LBL" == Replace(u, png, lbl) + ['.'] + lbl;
    assert u + ".LBL" == u + ['.'] + lbl;
    ReplaceAtEnd(u, '.', png, lbl);
  }

  // ---------------------------------------------------------------------------
  // Lines and values
  // ---------------------------------------------------------------------------

  /** skipComment: a line opening a comment counts as empty. */
  function SkipComment(line: string): (r: string)
    ensures StartsWith(line, "/*") ==> r == ""
    ensures !StartsWith(line, "/*") ==> r == line
  {
    if StartsWith(line, "/*") then "" else line
  }

  predicate IsEnd(line: string) { StartsWith(line, PDS_END) }
  predicate HasGroup(line: string) { StartsWith(line, PDS_GROUP) }
  predicate HasObject(line: string) { StartsWith(line, PDS_OBJECT) }

  /** A continuation line as parseKeyword appends it: trimmed, comments dropped, the literal `\s+` removed. */
  function Clean(line: string): string {
    Replace(SkipComment(Trim(line)), "\\s+", "")
  }

  /** No character of `s` is in `cs`. */
  predicate NoneOf(s: string, cs: set<char>) {
    forall k :: 0 <= k < |s| ==> s[k] !in cs
  }

  /**
   * parseValue: a quoted value loses every quote; a parenthesised list loses its
   * parentheses and quotes, is trimmed and is cut at each comma; anything else is
   * kept as it is.
   */
  function ParseValue(data: string): (r: PdsValue)
    ensures StartsWith(data, "\"") ==> r.Text? && NoneOf(r.text, {'"'})
    ensures !StartsWith(data, "\"") && StartsWith(data, "(") ==>
              r.Values? && forall k :: 0 <= k < |r.items| ==> NoneOf(r.items[k], {'(', ')', '"', ','})
    ensures !StartsWith(data, "\"") && !StartsWith(data, "(") ==> r == Text(data)
  {
    if StartsWith(data, "\"") then
      ReplaceDeletes(data, '"');
      Text(Replace(data, "\"", ""))
    else if StartsWith(data, "(") then
      var d1 := Replace(data, "(", "");
      var d2 := Replace(d1, ")", "");
      var d3 := Replace(d2, "\"", "");
      var t := Trim(d3);
      ReplaceDeletes(data, '(');
      ReplaceDeletes(d1, ')');
      ReplaceDeletes(d2, '"');
      TrimKeeps(d3, {'(', ')', '"'});
      SplitCommaOmits(t, {'(', ')', '"'});
      Values(Split(t, ","))
    else Text(data)
  }

  /** Replacing a one-character target by nothing deletes every occurrence and adds nothing. */
  lemma {:induction false} ReplaceDeletes(s: string, c: char)
    ensures NoneOf(Replace(s, [c], ""), {c})
    ensures forall cs: set<char> :: NoneOf(s, cs) ==> NoneOf(Replace(s, [c], ""), cs)
    decreases |s|
  {
    if |s| >= 1 {
      ReplaceDeletes(s[1..], c);
      if StartsWith(s, [c]) {
        assert s[1..] == s[|[c]|..];
      } else {
        assert s[0] != c;
      }
      forall cs: set<char> | NoneOf(s, cs) ensures NoneOf(Replace(s, [c], ""), cs) {
        assert NoneOf(s[1..], cs);
      }
    }
  }

  /** Trimming keeps a substring. */
  lemma TrimKeeps(s: string, cs: set<char>)
    requires NoneOf(s, cs)
    ensures NoneOf(Trim(s), cs)
  {
    var t := TrimStart(s);
    TrimStartIsSuffix(s);
    assert NoneOf(t, cs);
    TrimEndIsPrefix(t);
  }

  /** A character not in `s` makes `Contains(s, [c])` false, and a character in it makes it true. */
  lemma {:induction false} ContainsChar(s: string, c: char)
    ensures Contains(s, [c]) <==> !NoneOf(s, {c})
    decreases |s|
  {
    if |s| > 0 {
      ContainsChar(s[1..], c);
      if s[0] == c {
        assert StartsWith(s, [c]);
      } else {
        assert !StartsWith(s, [c]);
        assert NoneOf(s, {c}) <==> NoneOf(s[1..], {c}) by {
          if NoneOf(s[1..], {c}) {
            forall k | 0 <= k < |s| ensures s[k] != c {
              if k > 0 { assert s[k] == s[1..][k - 1]; }
            }
          }
        }
      }
    }
  }

  /** Every piece of a comma split is comma-free and keeps what its source kept out. */
  lemma {:induction false} PiecesOmit(s: string, cs: set<char>)
    requires NoneOf(s, cs)
    ensures forall k :: 0 <= k < |Pieces(s, ",")| ==> NoneOf(Pieces(s, ",")[k], cs + {','})
    decreases |s|
  {
    match IndexOf(s, ",")
    case None =>
      ContainsChar(s, ',');
    case Some(i) =>
      forall k | 0 <= k < i ensures s[k] != ',' {
        assert !StartsWith(s[k..], ",");
      }
      assert NoneOf(s[i + 1..], cs);
      PiecesOmit(s[i + 1..], cs);
      assert Pieces(s, ",") == [s[..i]] + Pieces(s[i + 1..], ",");
  }

  lemma SplitCommaOmits(s: string, cs: set<char>)
    requires NoneOf(s, cs)
    ensures forall k :: 0 <= k < |Split(s, ",")| ==> NoneOf(Split(s, ",")[k], cs + {','})
  {
    if !Contains(s, ",") {
      ContainsChar(s, ',');
    } else {
      PiecesOmit(s, cs);
      var ps := Pieces(s, ",");
      var r := DropTrailingEmpty(ps);
      assert r == ps[..|r|];
      forall k | 0 <= k < |r| ensures NoneOf(r[k], cs + {','}) {
        assert r[k] == ps[k];
      }
    }
  }

  /** A plain key, the assignment sign and a plain value are cut into [key, value]. */
  lemma SplitAssignOfKeyValue(key: string, value: string)
    requires key != [] && NoneOf(key, {' ', '\t', '\n', '\U{000B}', '\U{000C}', '\r'})
    requires value != [] && !IsSpace(value[0]) && FindAssign(value, 0).None?
    ensures SplitAssign(key + " = " + value) == [key, value]
  {
    var s := key + " = " + value;
    var n := |key|;
    assert s[n] == ' ' && s[n + 1] == '=' && s[n + 2] == ' ';
    assert SpaceRunEnd(s, n + 1) == n + 1;
    assert s[n + 3] == value[0];
    assert SpaceRunEnd(s, n + 3) == n + 3;
    assert AssignMatchAt(s, n) == Some(n + 3);
    FindAssignSkips(s, 0, n);
    assert s[..n] == key && s[n + 3..] == value;
    assert AssignPieces(value) == [value];
    assert AssignPieces(s) == [key, value];
  }

  /** Positions that are not white space cannot open a match. */
  lemma {:induction false} FindAssignSkips(s: string, i: nat, n: nat)
    requires i <= n < |s| && forall k :: i <= k < n ==> !IsSpace(s[k])
    ensures FindAssign(s, i) == FindAssign(s, n)
    decreases n - i
  {
    if i < n {
      assert AssignMatchAt(s, i).None?;
      FindAssignSkips(s, i + 1, n);
    }
  }

  // ---------------------------------------------------------------------------
  // The label as the parser reads it
  // ---------------------------------------------------------------------------

  function Prefixed<T>(p: seq<T>, r: Option<Parsed<seq<T>>>): Option<Parsed<seq<T>>> {
    if r.None? then None else Some(Parsed(p + r.value.value, r.value.next))
  }

  /**
   * The continuation parseKeyword gathers from line `i` on: the cleaned lines up to
   * the first line holding `=`, which is not consumed.  Running out of lines first
   * is the NullPointerException of `contains` on a null line.
   */
  function Continue(lines: seq<string>, i: nat): (r: Option<Parsed<string>>)
    requires i <= |lines|
    decreases |lines| - i
    ensures r.Some? ==> i <= r.value.next < |lines| && Contains(lines[r.value.next], "=")
    ensures r.Some? ==> forall k :: i <= k < r.value.next ==> !Contains(lines[k], "=")
  {
    if i == |lines| then None
    else if Contains(lines[i], "=") then Some(Parsed("", i))
    else Prefixed(Clean(lines[i]), Continue(lines, i + 1))
  }

  /**
   * parseKeyword on `line` with the reader at line `i`: the key and the value of the
   * line's assignment, the value extended by the continuation.  None when the line
   * has no assignment (an ArrayIndexOutOfBoundsException) or the continuation runs
   * out of lines.
   */
  function KeywordAt(lines: seq<string>, line: string, i: nat): (r: Option<Parsed<KeyValue>>)
    requires i <= |lines|
    ensures r.Some? ==> i <= r.value.next < |lines|
  {
    var parts := SplitAssign(line);
    var c := Continue(lines, i);
    if c.None? || |parts| < 2 then None
    else Some(Parsed(KeyValue(parts[0], parts[1] + c.value.value), c.value.next))
  }

  /** The body of a GROUP or OBJECT from line `i`: its entries, up to a raw line starting with the end tag. */
  function BlockAt(lines: seq<string>, node: string, endTag: string, i: nat): (r: Option<Parsed<seq<Entry>>>)
    requires i <= |lines|
    decreases |lines| - i
    ensures r.Some? ==> i < r.value.next <= |lines|
  {
    if i == |lines| then None
    else if StartsWith(lines[i], endTag) then Some(Parsed([], i + 1))
    else
      var kw := KeywordAt(lines, Trim(lines[i]), i + 1);
      if kw.None? then None
      else
        var rest := BlockAt(lines, node, endTag, kw.value.next);
        if rest.None? then None
        else Some(Parsed([Entry(node, kw.value.value.key, ParseValue(kw.value.value.value))] + rest.value.value,
                         rest.value.next))
  }

  /** parseGroup / parseObject: the block named by the right-hand side of its opening line. */
  function GroupAt(lines: seq<string>, line: string, endTag: string, i: nat): (r: Option<Parsed<seq<Entry>>>)
    requires i <= |lines|
    ensures r.Some? ==> i < r.value.next <= |lines|
  {
    var parts := SplitAssign(line);
    if |parts| < 2 then None else BlockAt(lines, parts[1], endTag, i)
  }

  /** The entries the line loop of init files from line `i` to the end; None when it throws. */
  function LabelAt(lines: seq<string>, i: nat): (r: Option<seq<Entry>>)
    requires i <= |lines|
    decreases |lines| - i
  {
    if i == |lines| then Some([])
    else
      var line := LabelLine(lines[i]);
      if line == "" || IsEnd(line) then LabelAt(lines, i + 1)
      else if HasGroup(line) || HasObject(line) then
        var g := GroupAt(lines, line, if HasGroup(line) then PDS_END_GROUP else PDS_END_OBJECT, i + 1);
        if g.None? then None else PrefixedAll(g.value.value, LabelAt(lines, g.value.next))
      else
        var kw := KeywordAt(lines, line, i + 1);
        if kw.None? then None
        else PrefixedAll([Entry(PDS_ROOT, kw.value.value.key, ParseValue(kw.value.value.value))],
                         LabelAt(lines, kw.value.next))
  }

  function PrefixedAll<T>(p: seq<T>, r: Option<seq<T>>): Option<seq<T>> {
    if r.None? then None else Some(p + r.value)
  }

  /** The line init reads at `i`, trimmed and with a comment dropped. */
  function LabelLine(raw: string): string {
    SkipComment(Trim(raw))
  }

  /** An empty line, a comment or a line opening with END is passed over. */
  lemma LabelSkip(lines: seq<string>, i: nat, next: nat, raw: string)
    requires i < |lines| && next == i + 1 && lines[i] == raw
    requires LabelLine(raw) == "" || IsEnd(LabelLine(raw))
    ensures LabelAt(lines, i) == LabelAt(lines, next)
  {
  }

  /** A GROUP or OBJECT line: the block's entries, then the label after its end tag; its failure fails the label. */
  lemma LabelBlock(lines: seq<string>, i: nat, next: nat, raw: string, endTag: string)
    requires i < |lines| && next == i + 1 && lines[i] == raw
    requires LabelLine(raw) != "" && !IsEnd(LabelLine(raw))
    requires HasGroup(LabelLine(raw)) || HasObject(LabelLine(raw))
    requires endTag == if HasGroup(LabelLine(raw)) then PDS_END_GROUP else PDS_END_OBJECT
    ensures var g := GroupAt(lines, LabelLine(raw), endTag, next);
            && (g.None? ==> LabelAt(lines, i).None?)
            && (g.Some? ==> LabelAt(lines, i) == PrefixedAll(g.value.value, LabelAt(lines, g.value.next)))
  {
  }

  /** Any other line is a top-level keyword; its failure fails the label. */
  lemma LabelKeyword(lines: seq<string>, i: nat, next: nat, raw: string)
    requires i < |lines| && next == i + 1 && lines[i] == raw
    requires LabelLine(raw) != "" && !IsEnd(LabelLine(raw))
    requires !HasGroup(LabelLine(raw)) && !HasObject(LabelLine(raw))
    ensures var kw := KeywordAt(lines, LabelLine(raw), next);
            && (kw.None? ==> LabelAt(lines, i).None?)
            && (kw.Some? ==> LabelAt(lines, i)
                             == PrefixedAll([Entry(PDS_ROOT, kw.value.value.key, ParseValue(kw.value.value.value))],
                                            LabelAt(lines, kw.value.next)))
  {
  }

  /** The continuation fails exactly when no later line holds `=`. */
  lemma {:induction false} ContinueFailsIffNoAssignment(lines: seq<string>, i: nat)
    requires i <= |lines|
    ensures Continue(lines, i).None? <==> forall k :: i <= k < |lines| ==> !Contains(lines[k], "=")
    decreases |lines| - i
  {
    if i == |lines| {
      assert Continue(lines, i).None?;
    } else if Contains(lines[i], "=") {
      assert Continue(lines, i).Some?;
      assert !(forall k :: i <= k < |lines| ==> !Contains(lines[k], "="));
    } else {
      ContinueFailsIffNoAssignment(lines, i + 1);
      assert Continue(lines, i) == Prefixed(Clean(lines[i]), Continue(lines, i + 1));
      PrefixedNone(Clean(lines[i]), Continue(lines, i + 1));
      assert (forall k :: i <= k < |lines| ==> !Contains(lines[k], "="))
             <==> (forall k :: i + 1 <= k < |lines| ==> !Contains(lines[k], "="));
    }
  }

  lemma PrefixedNone<T>(p: seq<T>, r: Option<Parsed<seq<T>>>)
    ensures Prefixed(p, r).None? <==> r.None?
  {
  }

  /**
   * A top-level `KEY = VALUE` line followed by a line with an assignment files
   * (KEY, VALUE) under "PDS" and reading goes on at the next line.
   */
  lemma KeywordLineFiledAtRoot(lines: seq<string>, i: nat, key: string, value: string)
    requires i + 1 < |lines| && Contains(lines[i + 1], "=")
    requires LabelLine(lines[i]) == key + " = " + value
    requires !IsEnd(key + " = " + value) && !HasGroup(key + " = " + value) && !HasObject(key + " = " + value)
    requires key != [] && NoneOf(key, {' ', '\t', '\n', '\U{000B}', '\U{000C}', '\r'})
    requires value != [] && !IsSpace(value[0]) && FindAssign(value, 0).None?
    ensures LabelAt(lines, i) == PrefixedAll([Entry(PDS_ROOT, key, ParseValue(value))], LabelAt(lines, i + 1))
  {
    var line := key + " = " + value;
    assert line != [] by {
      assert |line| == |key| + 3 + |value|;
    }
    LabelKeyword(lines, i, i + 1, lines[i]);
    KeywordOfPlainLine(lines, key, value, i + 1);
  }

  /**
   * A top-level keyword after which no line holds `=` (the last keyword before END,
   * say) makes init throw: its continuation runs into the end of the file.
   */
  lemma KeywordWithoutFollowingAssignmentThrows(lines: seq<string>, i: nat)
    requires i < |lines|
    requires LabelLine(lines[i]) != "" && !IsEnd(LabelLine(lines[i]))
    requires !HasGroup(LabelLine(lines[i])) && !HasObject(LabelLine(lines[i]))
    requires forall k :: i < k < |lines| ==> !Contains(lines[k], "=")
    ensures LabelAt(lines, i).None?
  {
    ContinueFailsIffNoAssignment(lines, i + 1);
    LabelKeyword(lines, i, i + 1, lines[i]);
  }

  lemma PrefixedAllNil<T>(r: Option<seq<T>>)
    ensures PrefixedAll([], r) == r
  {
    if r.Some? {
      assert [] + r.value == r.value;
    }
  }

  lemma AppendAssociates<T>(a: seq<T>, b: seq<T>, c: seq<T>)
    ensures (a + b) + c == a + (b + c)
  {
  }

  lemma PrefixedAllStep<T>(all: Option<seq<T>>, added: seq<T>, r: Option<seq<T>>, more: seq<T>, rest: Option<seq<T>>)
    requires all == PrefixedAll(added, r) && r == PrefixedAll(more, rest)
    ensures all == PrefixedAll(added + more, rest)
  {
    if rest.Some? {
      assert added + (more + rest.value) == (added + more) + rest.value;
    }
  }

  /** Every entry read inside a block is filed under the block's node. */
  lemma {:induction false} BlockEntriesUnderNode(lines: seq<string>, node: string, endTag: string, i: nat)
    requires i <= |lines|
    ensures var r := BlockAt(lines, node, endTag, i);
            r.Some? ==> forall k :: 0 <= k < |r.value.value| ==> r.value.value[k].node == node
    decreases |lines| - i
  {
    if i < |lines| && !StartsWith(lines[i], endTag) {
      var kw := KeywordAt(lines, Trim(lines[i]), i + 1);
      if kw.Some? {
        BlockEntriesUnderNode(lines, node, endTag, kw.value.next);
      }
    }
  }

  /** A block ends on the line just before the one it returns, and that line opens with the end tag. */
  lemma {:induction false} BlockEndsAtTag(lines: seq<string>, node: string, endTag: string, i: nat)
    requires i <= |lines|
    ensures var r := BlockAt(lines, node, endTag, i);
            r.Some? ==> StartsWith(lines[r.value.next - 1], endTag)
    decreases |lines| - i
  {
    if i == |lines| {
    } else if StartsWith(lines[i], endTag) {
      BlockAtEndTag(lines, node, endTag, i);
    } else {
      var next := BlockAtEntry(lines, node, endTag, i);
      BlockEndsAtTag(lines, node, endTag, next);
    }
  }

  /** A line opening with the end tag closes an empty block just after it. */
  lemma BlockAtEndTag(lines: seq<string>, node: string, endTag: string, i: nat)
    requires i < |lines| && StartsWith(lines[i], endTag)
    ensures BlockAt(lines, node, endTag, i) == Some(Parsed([], i + 1))
  {
  }

  /** A block from a line that does not end it succeeds only through its first entry, and ends where the rest ends. */
  lemma BlockAtEntry(lines: seq<string>, node: string, endTag: string, i: nat) returns (next: nat)
    requires i < |lines| && !StartsWith(lines[i], endTag)
    ensures i < next <= |lines|
    ensures BlockAt(lines, node, endTag, i).Some? ==>
              BlockAt(lines, node, endTag, next).Some?
              && BlockAt(lines, node, endTag, i).value.next == BlockAt(lines, node, endTag, next).value.next
  {
    var kw := KeywordAt(lines, Trim(lines[i]), i + 1);
    next := if kw.Some? then kw.value.next else i + 1;
  }

  /**
   * A `KEY = VALUE` line followed by a line with an assignment is read as (KEY, VALUE),
   * and the reader stays on that next line.
   */
  lemma KeywordOfPlainLine(lines: seq<string>, key: string, value: string, i: nat)
    requires i < |lines| && Contains(lines[i], "=")
    requires key != [] && NoneOf(key, {' ', '\t', '\n', '\U{000B}', '\U{000C}', '\r'})
    requires value != [] && !IsSpace(value[0]) && FindAssign(value, 0).None?
    ensures KeywordAt(lines, key + " = " + value, i) == Some(Parsed(KeyValue(key, value), i))
  {
    SplitAssignOfKeyValue(key, value);
    assert value + "" == value;
  }

  lemma PrefixedNil<T>(r: Option<Parsed<seq<T>>>)
    ensures Prefixed([], r) == r
  {
    if r.Some? {
      assert [] + r.value.value == r.value.value;
    }
  }

  lemma PrefixedAppend<T>(a: seq<T>, b: seq<T>, r: Option<Parsed<seq<T>>>)
    ensures Prefixed(a, Prefixed(b, r)) == Prefixed(a + b, r)
  {
    if r.Some? {
      assert a + (b + r.value.value) == (a + b) + r.value.value;
    }
  }

  /** A line without `=` is cleaned and joined to the continuation. */
  lemma ContinueStep(lines: seq<string>, i: nat, next: nat, raw: string)
    requires i < |lines| && next == i + 1 && lines[i] == raw && !Contains(raw, "=")
    ensures Continue(lines, i) == Prefixed(Clean(raw), Continue(lines, next))
  {
  }

  /** A line holding `=` ends the continuation, unread. */
  lemma ContinueEnd(lines: seq<string>, i: nat, raw: string)
    requires i < |lines| && lines[i] == raw && Contains(raw, "=")
    ensures Continue(lines, i) == Some(Parsed("", i))
  {
  }

  /** A raw line opening with the end tag closes the block. */
  lemma BlockEnd(lines: seq<string>, node: string, endTag: string, i: nat, raw: string)
    requires i < |lines| && lines[i] == raw && StartsWith(raw, endTag)
    ensures BlockAt(lines, node, endTag, i) == Some(Parsed([], i + 1))
  {
  }

  /** A block whose line does not parse as a keyword fails. */
  lemma BlockStepFails(lines: seq<string>, node: string, endTag: string, i: nat, next: nat, raw: string)
    requires i < |lines| && next == i + 1
    requires lines[i] == raw
    requires !StartsWith(raw, endTag)
    requires KeywordAt(lines, Trim(raw), next).None?
    ensures BlockAt(lines, node, endTag, i).None?
  {
  }

  lemma BlockFails<T>(g: Option<Parsed<seq<T>>>, added: seq<T>, r: Option<Parsed<seq<T>>>)
    requires g == Prefixed(added, r) && r.None?
    ensures g.None?
  {
  }

  lemma PrefixedStep<T>(g: Option<Parsed<seq<T>>>, added: seq<T>, r: Option<Parsed<seq<T>>>, more: seq<T>,
                        rest: Option<Parsed<seq<T>>>)
    requires g == Prefixed(added, r) && r == Prefixed(more, rest)
    ensures g == Prefixed(added + more, rest)
  {
    PrefixedAppend(added, more, rest);
  }

  lemma BlockDone<T>(g: Option<Parsed<seq<T>>>, added: seq<T>, next: nat)
    requires g == Prefixed(added, Some(Parsed([], next)))
    ensures g == Some(Parsed(added, next))
  {
    assert added + [] == added;
  }

  /** One keyword line of a block: its entry, then the rest of the block. */
  lemma BlockStep(lines: seq<string>, node: string, endTag: string, i: nat, next: nat, raw: string,
                  kw: Parsed<KeyValue>)
    requires i < |lines| && next == i + 1 && lines[i] == raw && !StartsWith(raw, endTag)
    requires KeywordAt(lines, Trim(raw), next) == Some(kw)
    ensures BlockAt(lines, node, endTag, i)
            == Prefixed([Entry(node, kw.value.key, ParseValue(kw.value.value))], BlockAt(lines, node, endTag, kw.next))
  {
  }

  // ---------------------------------------------------------------------------
  // The reader
  // ---------------------------------------------------------------------------

  /** A BufferedReader over the label's lines, with mark and reset. */
  class LabelReader {
    const lines: seq<string>
    var cursor: nat
    var marked: nat

    ghost predicate Valid()
      reads this
    {
      cursor <= |lines| && marked <= |lines|
    }

    constructor (lines: seq<string>)
      ensures Valid() && this.lines == lines && cursor == 0 && marked == 0
    {
      this.lines := lines;
      cursor := 0;
      marked := 0;
    }

    /** readLine: the next line, or None (null) at the end of the file. */
    method ReadLine() returns (line: Option<string>)
      requires Valid()
      modifies this
      ensures Valid() && marked == old(marked)
      ensures old(cursor) < |lines| ==> line == Some(lines[old(cursor)]) && cursor == old(cursor) + 1
      ensures old(cursor) == |lines| ==> line.None? && cursor == old(cursor)
    {
      if cursor < |lines| {
        line := Some(lines[cursor]);
        cursor := cursor + 1;
      } else {
        line := None;
      }
    }

    method Mark()
      requires Valid()
      modifies this
      ensures Valid() && cursor == old(cursor) && marked == cursor
    {
      marked := cursor;
    }

    method Reset()
      requires Valid()
      modifies this
      ensures Valid() && marked == old(marked) && cursor == marked
    {
      cursor := marked;
    }
  }

  /**
   * parseKeyword: cuts `line` at its assignment and appends each following line that
   * holds no `=`; the reader is reset onto the first line that does.
   */
  method ParseKeyword(line: string, reader: LabelReader) returns (r: Option<KeyValue>)
    requires reader.Valid()
    modifies reader
    ensures reader.Valid()
    ensures r.Some? <==> KeywordAt(reader.lines, line, old(reader.cursor)).Some?
    ensures r.Some? ==> KeywordAt(reader.lines, line, old(reader.cursor)) == Some(Parsed(r.value, reader.cursor))
  {
    var keyword := SplitAssign(line);
    ghost var ls := reader.lines;
    ghost var c := Continue(ls, reader.cursor);
    reader.Mark();
    ghost var m: nat := reader.marked;
    var current := reader.ReadLine();
    var value := "";
    PrefixedNil(Continue(ls, m));
    while current.Some? && !Contains(current.value, "=")
      invariant reader.Valid() && reader.lines == ls && reader.marked == m
      invariant m < |ls| ==> reader.cursor == m + 1
      invariant current == (if m < |ls| then Some(ls[m]) else None)
      invariant c == Prefixed(value, Continue(ls, m))
      decreases |ls| - m
    {
      if |keyword| < 2 {
        return None;
      }
      ghost var m0 := m;
      m := m + 1;
      ContinueStep(ls, m0, m, current.value);
      PrefixedStep(c, value, Continue(ls, m0), Clean(current.value), Continue(ls, m));
      value := value + Clean(current.value);
      reader.Mark();
      current := reader.ReadLine();
    }
    if current.None? {
      return None;
    }
    ContinueEnd(ls, m, current.value);
    BlockDone(c, value, m);
    reader.Reset();
    if |keyword| < 2 {
      return None;
    }
    r := Some(KeyValue(keyword[0], keyword[1] + value));
  }

  /** What one pass of the block loop does: a line's entry, the end tag, or an exception. */
  datatype BlockLine = Read(entry: Entry) | Closed | Failed

  /**
   * One pass of the loop of parseGroup / parseObject: reads a raw line; a line that
   * opens with the end tag closes the block, any other is trimmed and parsed as a
   * keyword filed under `node`.  `g` is the block as a whole, of which `added` has
   * been read before this line.
   */
  method ReadBlockLine(node: string, endTag: string, reader: LabelReader,
                       ghost g: Option<Parsed<seq<Entry>>>, ghost added: seq<Entry>)
    returns (step: BlockLine)
    requires reader.Valid()
    requires g == Prefixed(added, BlockAt(reader.lines, node, endTag, reader.cursor))
    modifies reader
    ensures reader.Valid()
    ensures !step.Failed? ==> old(reader.cursor) < reader.cursor
    ensures var b := BlockAt(reader.lines, node, endTag, old(reader.cursor));
            && (step.Failed? ==> b.None?)
            && (step.Closed? ==> b == Some(Parsed([], reader.cursor)))
            && (step.Read? ==> b == Prefixed([step.entry], BlockAt(reader.lines, node, endTag, reader.cursor)))
    ensures step.Failed? ==> g.None?
    ensures step.Closed? ==> g == Some(Parsed(added, reader.cursor))
    ensures step.Read? ==> g == Prefixed(added + [step.entry], BlockAt(reader.lines, node, endTag, reader.cursor))
  {
    ghost var at := reader.cursor;
    ghost var b := BlockAt(reader.lines, node, endTag, at);
    var current := reader.ReadLine();
    if current.None? {
      assert at == |reader.lines|;
      BlockFails(g, added, b);
      return Failed;
    }
    if StartsWith(current.value, endTag) {
      BlockEnd(reader.lines, node, endTag, at, current.value);
      BlockDone(g, added, reader.cursor);
      return Closed;
    }
    var trimmed := Trim(current.value);
    ghost var next := reader.cursor;
    assert next == at + 1;
    var kw := ParseKeyword(trimmed, reader);
    if kw.None? {
      BlockStepFails(reader.lines, node, endTag, at, next, current.value);
      BlockFails(g, added, b);
      return Failed;
    }
    BlockStep(reader.lines, node, endTag, at, next, current.value, Parsed(kw.value, reader.cursor));
    step := Read(Entry(node, kw.value.key, ParseValue(kw.value.value)));
    PrefixedStep(g, added, b, [step.entry], BlockAt(reader.lines, node, endTag, reader.cursor));
  }

  // ---------------------------------------------------------------------------
  // Reading the tree
  // ---------------------------------------------------------------------------

  /** The entry is `key` under `node`. */
  predicate Files(e: Entry, node: string, key: string) {
    e.node == node && e.key == key
  }

  /** The index of the last entry filed as `key` under `node`, or -1. */
  function LastIndex(entries: seq<Entry>, node: string, key: string): (k: int)
    ensures -1 <= k < |entries|
    ensures 0 <= k ==> Files(entries[k], node, key)
    ensures forall j :: k < j < |entries| ==> !Files(entries[j], node, key)
  {
    if entries == [] then -1
    else if Files(entries[|entries| - 1], node, key) then |entries| - 1
    else LastIndex(entries[..|entries| - 1], node, key)
  }

  /** Entry `k` is the last one filed as `key` under `node`. */
  predicate LastFiledAt(entries: seq<Entry>, k: int, node: string, key: string) {
    0 <= k < |entries| && Files(entries[k], node, key)
    && forall j :: k < j < |entries| ==> !Files(entries[j], node, key)
  }

  /** getTree(node).getLastLeaf(key): the value of the last entry filed as `key` under `node`; None is null. */
  function Lookup(entries: seq<Entry>, node: string, key: string): (r: Option<PdsValue>)
    ensures r.None? <==> forall k :: 0 <= k < |entries| ==> !Files(entries[k], node, key)
    ensures r.Some? ==> exists k :: 0 <= k < |entries| && entries[k] == Entry(node, key, r.value)
                                    && forall j :: k < j < |entries| ==> !Files(entries[j], node, key)
  {
    var k := LastIndex(entries, node, key);
    if k < 0 then None
    else
      assert entries[k] == Entry(node, key, entries[k].value);
      Some(entries[k].value)
  }

  /** The last assignment wins: an entry added to the tree is what a lookup of its node and key finds. */
  lemma LookupAfterAdd(entries: seq<Entry>, e: Entry, node: string, key: string)
    ensures Files(e, node, key) ==> Lookup(entries + [e], node, key) == Some(e.value)
    ensures !Files(e, node, key) ==> Lookup(entries + [e], node, key) == Lookup(entries, node, key)
  {
    var all := entries + [e];
    assert all[..|all| - 1] == entries;
  }

  /** The cast `(String)`: a list throws (None), null stays null (Some(None)). */
  function AsText(v: Option<PdsValue>): (r: Option<Option<string>>)
    ensures r.None? <==> v.Some? && v.value.Values?
    ensures r == Some(None) <==> v.None?
    ensures v.Some? && v.value.Text? ==> r == Some(Some(v.value.text))
  {
    if v.None? then Some(None)
    else if v.value.Values? then None
    else Some(Some(v.value.text))
  }

  /** Integer.parseInt of a value that must be there: null or a malformed number throws. */
  function RequiredInt(t: Option<Option<string>>): (r: Option<int>)
    ensures r.Some? <==> t.Some? && t.value.Some? && ParseInt(t.value.value).Some?
    ensures r.Some? ==> r == ParseInt(t.value.value)
  {
    if t.None? || t.value.None? then None else ParseInt(t.value.value)
  }

  /** `s != null ? Integer.parseInt(s) - offset : 0`, the subtraction in 32 bits. */
  function OptionalInt(t: Option<Option<string>>, offset: int): (r: Option<int>)
    ensures t == Some(None) ==> r == Some(0)
    ensures t.None? ==> r.None?
    ensures t.Some? && t.value.Some? ==>
              (r.Some? <==> ParseInt(t.value.value).Some?)
              && (r.Some? && INT_MIN <= ParseInt(t.value.value).value - offset <= INT_MAX ==>
                    r.value == ParseInt(t.value.value).value - offset)
  {
    if t.None? then None
    else if t.value.None? then Some(0)
    else
      var n := ParseInt(t.value.value);
      if n.None? then None else Some(IntSub(n.value, offset))
  }

  /** Double.valueOf of a value that must be there: null or a malformed number throws. */
  function RequiredReal(t: Option<Option<string>>, parseDouble: string -> Option<real>): (r: Option<real>)
    ensures r.Some? <==> t.Some? && t.value.Some? && parseDouble(t.value.value).Some?
    ensures r.Some? ==> r == parseDouble(t.value.value)
  {
    if t.None? || t.value.None? then None else parseDouble(t.value.value)
  }

  /** computeDetectorSize: (MSL:DETECTOR_SAMPLES, DETECTOR_LINES) of INSTRUMENT_STATE_PARMS, both required. */
  function DetectorSize(entries: seq<Entry>): (r: Option<Dims>)
    ensures r.Some? <==>
              RequiredInt(AsText(Lookup(entries, PDS_INSTRUMENT_STATE_PARMS, MSL_DETECTOR_SAMPLES))).Some?
              && RequiredInt(AsText(Lookup(entries, PDS_INSTRUMENT_STATE_PARMS, PDS_DETECTOR_LINES))).Some?
    ensures r.Some? ==>
              Some(r.value.width) == RequiredInt(AsText(Lookup(entries, PDS_INSTRUMENT_STATE_PARMS, MSL_DETECTOR_SAMPLES)))
              && Some(r.value.height) == RequiredInt(AsText(Lookup(entries, PDS_INSTRUMENT_STATE_PARMS, PDS_DETECTOR_LINES)))
  {
    var rows := RequiredInt(AsText(Lookup(entries, PDS_INSTRUMENT_STATE_PARMS, PDS_DETECTOR_LINES)));
    var columns := RequiredInt(AsText(Lookup(entries, PDS_INSTRUMENT_STATE_PARMS, MSL_DETECTOR_SAMPLES)));
    if columns.None? || rows.None? then None else Some(Dims(columns.value, rows.value))
  }

  /** computeFOV: HORIZONTAL_FOV and VERTICAL_FOV of INSTRUMENT_STATE_PARMS, in degrees, turned into radians. */
  function Fov(entries: seq<Entry>, parseDouble: string -> Option<real>): (r: Option<Vec2>)
    ensures var az := RequiredReal(AsText(Lookup(entries, PDS_INSTRUMENT_STATE_PARMS, PDS_HORIZONTAL_FOV)), parseDouble);
            var el := RequiredReal(AsText(Lookup(entries, PDS_INSTRUMENT_STATE_PARMS, PDS_VERTICAL_FOV)), parseDouble);
            (r.Some? <==> az.Some? && el.Some?)
            && (r.Some? ==> r.value == Vec2(az.value * PI / 180.0, el.value * PI / 180.0))
  {
    var azimuth := AsText(Lookup(entries, PDS_INSTRUMENT_STATE_PARMS, PDS_HORIZONTAL_FOV));
    var elevation := AsText(Lookup(entries, PDS_INSTRUMENT_STATE_PARMS, PDS_VERTICAL_FOV));
    if azimuth.None? || elevation.None? then None
    else
      var az := RequiredReal(azimuth, parseDouble);
      var el := RequiredReal(elevation, parseDouble);
      if az.None? || el.None? then None else Some(Vec2(ToRadians(az.value), ToRadians(el.value)))
  }

  /**
   * computeFirstSample: FIRST_LINE_SAMPLE and FIRST_LINE of IMAGE_REQUEST_PARMS, made
   * zero-based; a missing one is 0.
   */
  function FirstSample(entries: seq<Entry>): (r: Option<Dims>)
    ensures var x := OptionalInt(AsText(Lookup(entries, PDS_IMAGE_REQUEST_PARMS, PDS_FIRST_LINE_SAMPLE)), 1);
            var y := OptionalInt(AsText(Lookup(entries, PDS_IMAGE_REQUEST_PARMS, PDS_FIRST_LINE)), 1);
            (r.Some? <==> x.Some? && y.Some?) && (r.Some? ==> r.value == Dims(x.value, y.value))
  {
    var lines := AsText(Lookup(entries, PDS_IMAGE_REQUEST_PARMS, PDS_FIRST_LINE));
    var columns := AsText(Lookup(entries, PDS_IMAGE_REQUEST_PARMS, PDS_FIRST_LINE_SAMPLE));
    if lines.None? || columns.None? then None
    else
      var y := OptionalInt(lines, 1);
      var x := OptionalInt(columns, 1);
      if y.None? || x.None? then None else Some(Dims(x.value, y.value))
  }

  /** computeSubImage: LINE_SAMPLES and LINES of IMAGE_REQUEST_PARMS; a missing one is 0. */
  function SubImage(entries: seq<Entry>): (r: Option<Dims>)
    ensures var x := OptionalInt(AsText(Lookup(entries, PDS_IMAGE_REQUEST_PARMS, PDS_LINE_SAMPLES)), 0);
            var y := OptionalInt(AsText(Lookup(entries, PDS_IMAGE_REQUEST_PARMS, PDS_LINES)), 0);
            (r.Some? <==> x.Some? && y.Some?) && (r.Some? ==> r.value == Dims(x.value, y.value))
  {
    var lines := AsText(Lookup(entries, PDS_IMAGE_REQUEST_PARMS, PDS_LINES));
    var columns := AsText(Lookup(entries, PDS_IMAGE_REQUEST_PARMS, PDS_LINE_SAMPLES));
    if lines.None? || columns.None? then None
    else
      var y := OptionalInt(lines, 0);
      var x := OptionalInt(columns, 0);
      if y.None? || x.None? then None else Some(Dims(x.value, y.value))
  }

  /**
   * The first sample is zero-based: labels count from 1, so FIRST_LINE_SAMPLE = n and
   * FIRST_LINE = m give (n - 1, m - 1); without either the first sample is (0, 0).
   */
  lemma FirstSampleIsZeroBased(entries: seq<Entry>, sx: string, sy: string)
    requires Lookup(entries, PDS_IMAGE_REQUEST_PARMS, PDS_FIRST_LINE_SAMPLE) == Some(Text(sx))
    requires Lookup(entries, PDS_IMAGE_REQUEST_PARMS, PDS_FIRST_LINE) == Some(Text(sy))
    requires ParseInt(sx).Some? && ParseInt(sx).value > INT_MIN
    requires ParseInt(sy).Some? && ParseInt(sy).value > INT_MIN
    ensures FirstSample(entries) == Some(Dims(ParseInt(sx).value - 1, ParseInt(sy).value - 1))
    ensures FirstSample([]) == Some(Dims(0, 0))
  {
  }

  /** An articulation angle as written, "<value> <rad>", read as radians. */
  function Angle(item: string, parseDouble: string -> Option<real>): Option<real> {
    parseDouble(Replace(item, RAD_UNIT, ""))
  }

  /**
   * computeHorizontalCoordinates: the first two items of ARTICULATION_DEVICE_ANGLE in
   * RSM_ARTICULATION_STATE_PARMS, the azimuth and the elevation, the elevation moved
   * down by π/2.  A missing or single value, or one that is not a list, throws.
   */
  function HorizontalCoordinates(entries: seq<Entry>, parseDouble: string -> Option<real>): (r: Option<Vec2>)
    ensures var v := Lookup(entries, PDS_RSM_ARTICULATION_STATE_PARMS, PDS_ARTICULATION_DEVICE_ANGLE);
            (r.Some? <==> v.Some? && v.value.Values? && |v.value.items| >= 2
                          && Angle(v.value.items[0], parseDouble).Some? && Angle(v.value.items[1], parseDouble).Some?)
            && (r.Some? ==> r.value == Vec2(Angle(v.value.items[0], parseDouble).value,
                                            Angle(v.value.items[1], parseDouble).value - PI / 2.0))
  {
    var angles := Lookup(entries, PDS_RSM_ARTICULATION_STATE_PARMS, PDS_ARTICULATION_DEVICE_ANGLE);
    if angles.None? || angles.value.Text? || |angles.value.items| < 2 then None
    else
      var azimuth := Angle(angles.value.items[0], parseDouble);
      var elevation := Angle(angles.value.items[1], parseDouble);
      if azimuth.None? || elevation.None? then None else Some(Vec2(azimuth.value, elevation.value - PI / 2.0))
  }

  /** computeInstrumentID: INSTRUMENT_ID at the top level, null when missing; a list throws. */
  function InstrumentId(entries: seq<Entry>): (r: Option<Option<string>>)
    ensures r == Some(None) <==> forall k :: 0 <= k < |entries| ==> !Files(entries[k], PDS_ROOT, PDS_INSTRUMENT_ID)
    ensures r.None? <==> exists k :: LastFiledAt(entries, k, PDS_ROOT, PDS_INSTRUMENT_ID) && entries[k].value.Values?
    ensures r.Some? && r.value.Some? ==>
              exists k :: LastFiledAt(entries, k, PDS_ROOT, PDS_INSTRUMENT_ID) && entries[k].value == Text(r.value.value)
  {
    AsText(Lookup(entries, PDS_ROOT, PDS_INSTRUMENT_ID))
  }

  /** What init computes from the tree once the label is read. */
  datatype Description = Description(detectorSize: Dims, cameraFov: Vec2, firstLine: Dims,
                                     horizontalCoordinates: Vec2, instrumentId: Option<string>, subImage: Dims)

  /**
   * The six compute steps of init in order; None when one of them throws.  The description
   * exists exactly when each of the six values does, and then holds them.
   */
  function Describe(entries: seq<Entry>, parseDouble: string -> Option<real>): (r: Option<Description>)
    ensures r.Some? <==>
              DetectorSize(entries).Some? && Fov(entries, parseDouble).Some? && FirstSample(entries).Some?
              && HorizontalCoordinates(entries, parseDouble).Some? && InstrumentId(entries).Some? && SubImage(entries).Some?
    ensures r.Some? ==>
              r.value == Description(DetectorSize(entries).value, Fov(entries, parseDouble).value, FirstSample(entries).value,
                                     HorizontalCoordinates(entries, parseDouble).value, InstrumentId(entries).value,
                                     SubImage(entries).value)
  {
    var detector := DetectorSize(entries);
    var fov := Fov(entries, parseDouble);
    var first := FirstSample(entries);
    var coordinates := HorizontalCoordinates(entries, parseDouble);
    var id := InstrumentId(entries);
    var sub := SubImage(entries);
    if detector.None? || fov.None? || first.None? || coordinates.None? || id.None? || sub.None? then None
    else Some(Description(detector.value, fov.value, first.value, coordinates.value, id.value, sub.value))
  }

  /** What one pass of init's line loop does: the end of the file, the entries it filed, or an exception. */
  datatype LabelStep = EndOfFile | Filed(added: seq<Entry>) | Thrown

  /** The metadata tree and the values init extracts from it. */
  class MastPdsMetadata {
    /** The label file. */
    const lines: seq<string>
    /** Double.valueOf; None stands for its NumberFormatException or NullPointerException. */
    const parseDouble: string -> Option<real>
    /** The metadata tree, as its entries in the order they were added. */
    var entries: seq<Entry>
    var instrumentId: Option<string>
    var horizontalCoordinates: Vec2
    var cameraFov: Vec2
    var subImage: Dims
    var firstLine: Dims
    var detectorSize: Dims

    /** The constructor's fields, before init. */
    constructor (lines: seq<string>, parseDouble: string -> Option<real>)
      ensures this.lines == lines && this.parseDouble == parseDouble && entries == []
    {
      this.lines := lines;
      this.parseDouble := parseDouble;
      entries := [];
      instrumentId := None;
      horizontalCoordinates := Vec2(0.0, 0.0);
      cameraFov := Vec2(0.0, 0.0);
      subImage := Dims(0, 0);
      firstLine := Dims(0, 0);
      detectorSize := Dims(0, 0);
    }

    /**
     * init: reads the label line by line, filing top-level keywords under "PDS" and
     * blocks under their names, then runs the six compute steps.  False stands for
     * an exception, which the constructor passes on.
     */
    method Init() returns (ok: bool)
      modifies this
      ensures var whole := LabelAt(lines, 0);
              (ok <==> whole.Some? && Describe(old(entries) + whole.value, parseDouble).Some?)
              && (ok ==> entries == old(entries) + whole.value
                         && Describe(entries, parseDouble)
                            == Some(Description(detectorSize, cameraFov, firstLine, horizontalCoordinates, instrumentId,
                                                subImage)))
    {
      ok := ReadLabel();
      if ok {
        ok := Compute();
      }
    }

    /** The line loop of init: every entry of the label appended to the list, or false when it throws. */
    method ReadLabel() returns (ok: bool)
      modifies this
      ensures ok <==> LabelAt(lines, 0).Some?
      ensures ok ==> entries == old(entries) + LabelAt(lines, 0).value
    {
      var reader := new LabelReader(lines);
      ghost var whole := LabelAt(lines, 0);
      ghost var added: seq<Entry> := [];
      assert whole == PrefixedAll([], LabelAt(lines, reader.cursor)) by {
        if whole.Some? {
          assert [] + whole.value == whole.value;
        }
      }
      while true
        invariant fresh(reader) && reader.Valid() && reader.lines == lines
        invariant whole == PrefixedAll(added, LabelAt(lines, reader.cursor))
        invariant entries == old(entries) + added
        decreases |lines| - reader.cursor
      {
        var step := ReadLabelStep(reader, whole, added);
        match step
        case EndOfFile =>
          break;
        case Thrown =>
          return false;
        case Filed(more) =>
          AppendAssociates(old(entries), added, more);
          added := added + more;
      }
      ok := true;
    }

    /** One pass of the line loop, with what it means for the entries of the whole label. */
    method ReadLabelStep(reader: LabelReader, ghost whole: Option<seq<Entry>>, ghost added: seq<Entry>)
      returns (step: LabelStep)
      requires reader.Valid() && reader.lines == lines
      requires whole == PrefixedAll(added, LabelAt(lines, reader.cursor))
      modifies this, reader
      ensures reader.Valid() && (step.Filed? ==> old(reader.cursor) < reader.cursor)
      ensures step.EndOfFile? ==> whole == Some(added) && entries == old(entries)
      ensures step.Thrown? ==> whole.None?
      ensures step.Filed? ==> entries == old(entries) + step.added
                              && whole == PrefixedAll(added + step.added, LabelAt(lines, reader.cursor))
    {
      ghost var at := reader.cursor;
      step := ReadLabelLine(reader);
      if step.EndOfFile? {
        assert added + [] == added;
      } else if step.Filed? {
        PrefixedAllStep(whole, added, LabelAt(lines, at), step.added, LabelAt(lines, reader.cursor));
      }
    }

    /** The six compute steps that end init, in order; false when one of them throws. */
    method Compute() returns (ok: bool)
      modifies this
      ensures entries == old(entries)
      ensures ok <==> Describe(old(entries), parseDouble).Some?
      ensures ok ==> Describe(old(entries), parseDouble)
                     == Some(Description(detectorSize, cameraFov, firstLine, horizontalCoordinates, instrumentId, subImage))
    {
      ok := ComputeDetectorSize();
      if !ok {
        return;
      }
      ok := ComputeFov();
      if !ok {
        return;
      }
      ok := ComputeFirstSample();
      if !ok {
        return;
      }
      ok := ComputeHorizontalCoordinates();
      if !ok {
        return;
      }
      ok := ComputeInstrumentId();
      if !ok {
        return;
      }
      ok := ComputeSubImage();
    }

    /** computeDetectorSize: the detector size, (MSL:DETECTOR_SAMPLES, DETECTOR_LINES). False when it throws. */
    method ComputeDetectorSize() returns (ok: bool)
      modifies this
      ensures entries == old(entries) && cameraFov == old(cameraFov) && firstLine == old(firstLine)
      ensures horizontalCoordinates == old(horizontalCoordinates) && instrumentId == old(instrumentId) && subImage == old(subImage)
      ensures ok <==> DetectorSize(old(entries)).Some?
      ensures ok ==> detectorSize == DetectorSize(old(entries)).value
    {
      var r := DetectorSize(entries);
      if r.None? {
        return false;
      }
      detectorSize := r.value;
      ok := true;
    }

    /** computeFOV: the field of view in radians. False when it throws. */
    method ComputeFov() returns (ok: bool)
      modifies this
      ensures entries == old(entries) && detectorSize == old(detectorSize) && firstLine == old(firstLine)
      ensures horizontalCoordinates == old(horizontalCoordinates) && instrumentId == old(instrumentId) && subImage == old(subImage)
      ensures ok <==> Fov(old(entries), parseDouble).Some?
      ensures ok ==> cameraFov == Fov(old(entries), parseDouble).value
    {
      var r := Fov(entries, parseDouble);
      if r.None? {
        return false;
      }
      cameraFov := r.value;
      ok := true;
    }

    /** computeFirstSample: the zero-based first sample and line. False when it throws. */
    method ComputeFirstSample() returns (ok: bool)
      modifies this
      ensures entries == old(entries) && detectorSize == old(detectorSize) && cameraFov == old(cameraFov)
      ensures horizontalCoordinates == old(horizontalCoordinates) && instrumentId == old(instrumentId) && subImage == old(subImage)
      ensures ok <==> FirstSample(old(entries)).Some?
      ensures ok ==> firstLine == FirstSample(old(entries)).value
    {
      var r := FirstSample(entries);
      if r.None? {
        return false;
      }
      firstLine := r.value;
      ok := true;
    }

    /** computeHorizontalCoordinates: the azimuth and the elevation of the mast. False when it throws. */
    method ComputeHorizontalCoordinates() returns (ok: bool)
      modifies this
      ensures entries == old(entries) && detectorSize == old(detectorSize) && cameraFov == old(cameraFov)
      ensures firstLine == old(firstLine) && instrumentId == old(instrumentId) && subImage == old(subImage)
      ensures ok <==> HorizontalCoordinates(old(entries), parseDouble).Some?
      ensures ok ==> horizontalCoordinates == HorizontalCoordinates(old(entries), parseDouble).value
    {
      var r := HorizontalCoordinates(entries, parseDouble);
      if r.None? {
        return false;
      }
      horizontalCoordinates := r.value;
      ok := true;
    }

    /** computeInstrumentID: the instrument, or null. False when it throws. */
    method ComputeInstrumentId() returns (ok: bool)
      modifies this
      ensures entries == old(entries) && detectorSize == old(detectorSize) && cameraFov == old(cameraFov)
      ensures firstLine == old(firstLine) && horizontalCoordinates == old(horizontalCoordinates) && subImage == old(subImage)
      ensures ok <==> InstrumentId(old(entries)).Some?
      ensures ok ==> instrumentId == InstrumentId(old(entries)).value
    {
      var r := InstrumentId(entries);
      if r.None? {
        return false;
      }
      instrumentId := r.value;
      ok := true;
    }

    /** computeSubImage: the size of the requested sub-image. False when it throws. */
    method ComputeSubImage() returns (ok: bool)
      modifies this
      ensures entries == old(entries) && detectorSize == old(detectorSize) && cameraFov == old(cameraFov)
      ensures firstLine == old(firstLine) && horizontalCoordinates == old(horizontalCoordinates) && instrumentId == old(instrumentId)
      ensures ok <==> SubImage(old(entries)).Some?
      ensures ok ==> subImage == SubImage(old(entries)).value
    {
      var r := SubImage(entries);
      if r.None? {
        return false;
      }
      subImage := r.value;
      ok := true;
    }

    /**
     * One pass of init's line loop: an empty, comment or END line is passed over, a
     * GROUP or OBJECT line reads its block, any other line is a top-level keyword.
     */
    method ReadLabelLine(reader: LabelReader) returns (step: LabelStep)
      requires reader.Valid() && reader.lines == lines
      modifies this, reader
      ensures reader.Valid()
      ensures step.EndOfFile? ==> old(reader.cursor) == |lines| && entries == old(entries)
      ensures step.Thrown? ==> LabelAt(lines, old(reader.cursor)).None?
      ensures step.Filed? ==> old(reader.cursor) < reader.cursor && entries == old(entries) + step.added
                              && LabelAt(lines, old(reader.cursor)) == PrefixedAll(step.added, LabelAt(lines, reader.cursor))
    {
      ghost var at := reader.cursor;
      var current := reader.ReadLine();
      if current.None? {
        return EndOfFile;
      }
      var line := LabelLine(current.value);
      ghost var next := reader.cursor;
      if line == "" || IsEnd(line) {
        LabelSkip(lines, at, next, current.value);
        PrefixedAllNil(LabelAt(lines, next));
        assert entries == old(entries) + [];
        return Filed([]);
      }
      if HasGroup(line) || HasObject(line) {
        var endTag := if HasGroup(line) then PDS_END_GROUP else PDS_END_OBJECT;
        LabelBlock(lines, at, next, current.value, endTag);
        var before := |entries|;
        var parsed := ParseBlock(line, endTag, reader);
        if !parsed {
          return Thrown;
        }
        assert entries[before..] == GroupAt(lines, line, endTag, next).value.value;
        return Filed(entries[before..]);
      }
      LabelKeyword(lines, at, next, current.value);
      var kw := ParseKeyword(line, reader);
      if kw.None? {
        return Thrown;
      }
      var entry := Entry(PDS_ROOT, kw.value.key, ParseValue(kw.value.value));
      entries := entries + [entry];
      return Filed([entry]);
    }

    /** setSubImageSize: the sub-image size, nothing else. */
    method SetSubImageSize(size: Dims)
      modifies this
      ensures subImage == size
      ensures entries == old(entries) && detectorSize == old(detectorSize) && cameraFov == old(cameraFov)
      ensures firstLine == old(firstLine) && horizontalCoordinates == old(horizontalCoordinates)
      ensures instrumentId == old(instrumentId)
    {
      subImage := size;
    }

    /** parseGroup / parseObject: reads the block and adds its entries under the block's name. */
    method ParseBlock(line: string, endTag: string, reader: LabelReader) returns (ok: bool)
      requires reader.Valid() && reader.lines == lines
      modifies this, reader
      ensures reader.Valid()
      ensures var g := GroupAt(lines, line, endTag, old(reader.cursor));
              (ok <==> g.Some?) && (ok ==> entries == old(entries) + g.value.value && reader.cursor == g.value.next)
    {
      var group := SplitAssign(line);
      ghost var g := GroupAt(lines, line, endTag, reader.cursor);
      if |group| < 2 {
        return false;
      }
      var node := group[1];
      ghost var added: seq<Entry> := [];
      PrefixedNil(BlockAt(lines, node, endTag, reader.cursor));
      while true
        invariant reader.Valid() && reader.lines == lines
        invariant g == Prefixed(added, BlockAt(lines, node, endTag, reader.cursor))
        invariant entries == old(entries) + added
        decreases |lines| - reader.cursor
      {
        var step := ReadBlockLine(node, endTag, reader, g, added);
        if step.Failed? {
          return false;
        } else if step.Closed? {
          return true;
        }
        entries := entries + [step.entry];
        added := added + [step.entry];
      }
    }
  }
}
