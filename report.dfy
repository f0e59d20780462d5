/** The plain-text report: every exported entry on its own line, in three
    sections (reference positions, root joints, component properties) between
    a banner line at the top and at the bottom. How one entry is printed is
    a parameter `str`, standing for Python's `str`. */
module Report {
  import opened Sequences

  /** The lines of the report that are not entries; the report writes each
      followed by a newline. */
  const BannerLine := "#################################"
  const PositionsTitle := "### Reference Position ##########"
  const JointsTitle := "### Root Joints #################"
  const ComponentsTitle := "### Properties of Components ####"

  const ExportedMessage := "Files suscefully exported in "

  /** Each item printed and followed by a newline, in order. */
  function Stringified<T>(data: seq<T>, str: T -> string): (r: string)
    decreases |data|
  {
    if data == [] then ""
    else Stringified(data[..|data| - 1], str) + str(data[|data| - 1]) + "\n"
  }

  /** An empty list prints as the empty text. */
  lemma StringifiedEmpty<T>(str: T -> string)
    ensures Stringified([], str) == ""
  {
  }

  /** The script's loop that builds the text of one section. */
  method StringifyList<T>(data: seq<T>, str: T -> string) returns (stringfiedList: string)
    ensures stringfiedList == Stringified(data, str)
  {
    stringfiedList := "";
    for k := 0 to |data|
      invariant stringfiedList == Stringified(data[..k], str)
    {
      assert data[..k + 1][..k] == data[..k];
      stringfiedList := stringfiedList + str(data[k]) + "\n";
    }
    assert data[..|data|] == data;
  }

  /** The printed items, one per item. */
  function Printed<T>(data: seq<T>, str: T -> string): (r: seq<string>)
    ensures |r| == |data| && forall k :: 0 <= k < |data| ==> r[k] == str(data[k])
  {
    seq(|data|, k requires 0 <= k < |data| => str(data[k]))
  }

  /** No item prints with a newline inside. Python's `str` of the exported
      lists and dicts never does: it prints strings inside them escaped. */
  ghost predicate SingleLine<T>(data: seq<T>, str: T -> string)
  {
    forall k :: 0 <= k < |data| ==> '\n' !in str(data[k])
  }

  /** The position of the first newline of `s`, or |s| when there is none. */
  function NewlineIndex(s: string): (k: nat)
    ensures k <= |s|
    ensures forall i :: 0 <= i < k ==> s[i] != '\n'
    ensures k < |s| ==> s[k] == '\n'
  {
    if s == "" || s[0] == '\n' then 0 else 1 + NewlineIndex(s[1..])
  }

  /** The lines of a text, each without its terminating newline; a last piece
      without a newline is a line too. */
  function SplitLines(s: string): seq<string>
    decreases |s|
  {
    if s == "" then []
    else
      var k := NewlineIndex(s);
      if k == |s| then [s] else [s[..k]] + SplitLines(s[k + 1..])
  }

  /** Splitting a line terminated by a newline off the front of a text. */
  lemma SplitLinesCons(line: string, rest: string)
    requires '\n' !in line
    ensures SplitLines(line + "\n" + rest) == [line] + SplitLines(rest)
  {
    var s := line + "\n" + rest;
    var k := NewlineIndex(s);
    forall i | 0 <= i < |line|
      ensures s[i] != '\n'
    {
      assert s[i] == line[i];
    }
    assert s[|line|] == '\n';
    assert k == |line|;
    assert s[..k] == line;
    assert s[k + 1..] == rest;
  }

  /** Printing the concatenation of two lists prints one after the other. */
  lemma {:induction false} StringifiedAppend<T>(a: seq<T>, b: seq<T>, str: T -> string)
    ensures Stringified(a + b, str) == Stringified(a, str) + Stringified(b, str)
    decreases |b|
  {
    if b == [] {
      assert a + b == a;
    } else {
      var b' := b[..|b| - 1];
      assert (a + b)[..|a + b| - 1] == a + b';
      StringifiedAppend(a, b', str);
    }
  }

  /** Printing a non-empty list prints its first item, then the rest. */
  lemma StringifiedCons<T>(data: seq<T>, str: T -> string)
    requires data != []
    ensures Stringified(data, str) == str(data[0]) + "\n" + Stringified(data[1..], str)
  {
    var head := [data[0]];
    StringifiedAppend(head, data[1..], str);
    assert head + data[1..] == data;
    assert head[..0] == [];
  }

  lemma SingleLineTail<T>(data: seq<T>, str: T -> string)
    requires data != [] && SingleLine(data, str)
    ensures '\n' !in str(data[0]) && SingleLine(data[1..], str)
  {
    forall k | 0 <= k < |data| - 1
      ensures '\n' !in str(data[1..][k])
    {
      assert data[1..][k] == data[k + 1];
    }
  }

  /** A section of the report splits back into the printed items, whatever text follows. */
  lemma {:induction false} SplitLinesStringified<T>(data: seq<T>, str: T -> string, rest: string)
    requires SingleLine(data, str)
    ensures SplitLines(Stringified(data, str) + rest) == Printed(data, str) + SplitLines(rest)
    decreases |data|
  {
    if data == [] {
      assert Stringified(data, str) + rest == rest;
    } else {
      var x, tail := str(data[0]), data[1..];
      var t := Stringified(tail, str) + rest;
      assert Stringified(data, str) + rest == x + "\n" + t by {
        StringifiedCons(data, str);
      }
      SingleLineTail(data, str);
      var lines, pt, pr := SplitLines(rest), Printed(tail, str), Printed(data, str);
      calc {
        SplitLines(Stringified(data, str) + rest);
        SplitLines(x + "\n" + t);
        { SplitLinesCons(x, t); }
        [x] + SplitLines(t);
        { SplitLinesStringified(tail, str, rest); }
        [x] + (pt + lines);
        { assert pr == [x] + pt; }
        pr + lines;
      }
    }
  }

  /** Splitting the printed section into lines gives the printed items back. */
  lemma StringifiedRoundTrip<T>(data: seq<T>, str: T -> string)
    requires SingleLine(data, str)
    ensures SplitLines(Stringified(data, str)) == Printed(data, str)
  {
    SplitLinesStringified(data, str, "");
    assert Stringified(data, str) + "" == Stringified(data, str);
    assert Printed(data, str) + [] == Printed(data, str);
  }

  /** A printed section has one newline per item. */
  lemma {:induction false} StringifiedNewlines<T>(data: seq<T>, str: T -> string)
    requires SingleLine(data, str)
    ensures Count(Stringified(data, str), '\n') == |data|
    decreases |data|
  {
    if data != [] {
      var init := data[..|data| - 1];
      var last := data[|data| - 1];
      assert SingleLine(init, str) by {
        forall k | 0 <= k < |init| ensures '\n' !in str(init[k]) {
          assert init[k] == data[k];
        }
      }
      StringifiedNewlines(init, str);
      CountAppend(Stringified(init, str), str(last), '\n');
      CountAppend(Stringified(init, str) + str(last), "\n", '\n');
      assert Count("\n", '\n') == 1;
    }
  }

  /** The layout of the report. */
  function ReportText<P, J, C>(
    referencePosition: seq<P>, rootJoints: seq<J>, propertiesComponents: seq<C>,
    strP: P -> string, strJ: J -> string, strC: C -> string): string
  {
    BannerLine + "\n"
      + PositionsTitle + "\n" + Stringified(referencePosition, strP)
      + JointsTitle + "\n" + Stringified(rootJoints, strJ)
      + ComponentsTitle + "\n" + Stringified(propertiesComponents, strC)
      + BannerLine + "\n"
  }

  /** A line printed as it is. */
  function Verbatim(line: string): string
  {
    line
  }

  /** Printing the printed items again, verbatim, gives the same text. */
  lemma {:induction false} StringifiedPrinted<T>(data: seq<T>, str: T -> string)
    ensures Stringified(Printed(data, str), Verbatim) == Stringified(data, str)
    decreases |data|
  {
    if data != [] {
      var init := data[..|data| - 1];
      assert Printed(data, str)[..|data| - 1] == Printed(init, str);
      StringifiedPrinted(init, str);
    }
  }

  /** The lines of the report, in order. */
  function ReportLayout<P, J, C>(
    referencePosition: seq<P>, rootJoints: seq<J>, propertiesComponents: seq<C>,
    strP: P -> string, strJ: J -> string, strC: C -> string): seq<string>
  {
    [BannerLine, PositionsTitle] + Printed(referencePosition, strP)
      + [JointsTitle] + Printed(rootJoints, strJ)
      + [ComponentsTitle] + Printed(propertiesComponents, strC)
      + [BannerLine]
  }

  /** The report is its layout, each line followed by a newline. */
  lemma ReportIsLayout<P, J, C>(
    referencePosition: seq<P>, rootJoints: seq<J>, propertiesComponents: seq<C>,
    strP: P -> string, strJ: J -> string, strC: C -> string)
    ensures ReportText(referencePosition, rootJoints, propertiesComponents, strP, strJ, strC)
         == Stringified(ReportLayout(referencePosition, rootJoints, propertiesComponents, strP, strJ, strC), Verbatim)
  {
    var p1, p2, p3 := Printed(referencePosition, strP), Printed(rootJoints, strJ),
                      Printed(propertiesComponents, strC);
    var s1, s2, s3 := Stringified(referencePosition, strP), Stringified(rootJoints, strJ),
                      Stringified(propertiesComponents, strC);
    StringifiedPrinted(referencePosition, strP);
    StringifiedPrinted(rootJoints, strJ);
    StringifiedPrinted(propertiesComponents, strC);
    var a := [BannerLine, PositionsTitle];
    var ab := a + p1;
    var abc := ab + [JointsTitle];
    var abcd := abc + p2;
    var abcde := abcd + [ComponentsTitle];
    var abcdef := abcde + p3;
    var all := abcdef + [BannerLine];
    assert Stringified(a, Verbatim) == BannerLine + "\n" + PositionsTitle + "\n" by {
      assert a[..|a| - 1] == [BannerLine];
      SingletonStringified(BannerLine);
    }
    StringifiedAppend(a, p1, Verbatim);
    StringifiedAppend(ab, [JointsTitle], Verbatim);
    StringifiedAppend(abc, p2, Verbatim);
    StringifiedAppend(abcd, [ComponentsTitle], Verbatim);
    StringifiedAppend(abcde, p3, Verbatim);
    StringifiedAppend(abcdef, [BannerLine], Verbatim);
    SingletonStringified(JointsTitle);
    SingletonStringified(ComponentsTitle);
    SingletonStringified(BannerLine);
  }

  lemma SingletonStringified(line: string)
    ensures Stringified([line], Verbatim) == line + "\n"
  {
    assert [line][..0] == [];
  }

  /** Read back line by line, the report is its banner, then each section's
      title followed by that section's entries in order, then the banner. */
  lemma ReportLines<P, J, C>(
    referencePosition: seq<P>, rootJoints: seq<J>, propertiesComponents: seq<C>,
    strP: P -> string, strJ: J -> string, strC: C -> string)
    requires SingleLine(referencePosition, strP)
    requires SingleLine(rootJoints, strJ)
    requires SingleLine(propertiesComponents, strC)
    ensures SplitLines(ReportText(referencePosition, rootJoints, propertiesComponents, strP, strJ, strC))
         == ReportLayout(referencePosition, rootJoints, propertiesComponents, strP, strJ, strC)
  {
    var layout := ReportLayout(referencePosition, rootJoints, propertiesComponents, strP, strJ, strC);
    ReportIsLayout(referencePosition, rootJoints, propertiesComponents, strP, strJ, strC);
    assert '\n' !in BannerLine && '\n' !in PositionsTitle;
    assert '\n' !in JointsTitle && '\n' !in ComponentsTitle;
    assert SingleLine(layout, Verbatim);
    StringifiedRoundTrip(layout, Verbatim);
    assert Printed(layout, Verbatim) == layout;
  }

  /** The text-building part of the export: the report text and the
      confirmation message for the output directory. */
  method ExportText<P, J, C>(
    referencePosition: seq<P>, rootJoints: seq<J>, propertiesComponents: seq<C>,
    strP: P -> string, strJ: J -> string, strC: C -> string, directoryPath: string)
    returns (textFile: string, message: string)
    ensures textFile == ReportText(referencePosition, rootJoints, propertiesComponents, strP, strJ, strC)
    ensures message == ExportedMessage + directoryPath
  {
    textFile := BannerLine + "\n";
    textFile := textFile + PositionsTitle + "\n";
    var section := StringifyList(referencePosition, strP);
    textFile := textFile + section;
    textFile := textFile + JointsTitle + "\n";
    section := StringifyList(rootJoints, strJ);
    textFile := textFile + section;
    textFile := textFile + ComponentsTitle + "\n";
    section := StringifyList(propertiesComponents, strC);
    textFile := textFile + section;
    textFile := textFile + BannerLine + "\n";
    message := ExportedMessage + directoryPath;
  }
}
