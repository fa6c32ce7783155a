/** The post-processing of the language model's raw answer into a bulleted
    list (app.py, the comprehension that builds `formatted_answer`). */
module Formatter {
  import opened Text

  /** A line that `strip()` empties; the comprehension's filter drops it. */
  predicate IsBlank(line: String) {
    AllSpace(line)
  }

  /** A line whose stripped form already starts with the bullet marker. */
  predicate IsBullet(line: String) {
    StartsWith(Strip(line), "*")
  }

  /** The comprehension's element expression: a bullet line passes through
      verbatim, any other line becomes `"* "` followed by its stripped form. */
  function FormatLine(line: String): (r: String)
    ensures IsBullet(r) && !IsBlank(r)
    ensures '\n' !in line ==> '\n' !in r
    ensures r == line <==> IsBullet(line)
  {
    if IsBullet(line) then
      line
    else
      MarkedLine(line);
      "* " + Strip(line)
  }

  /** The text of a non-blank line survives formatting: stripped, the output
      is the stripped input, with the marker in front unless it had one. A
      formatted plain line has no surrounding whitespace left to strip, so
      it is exactly the marker followed by the stripped input. */
  lemma FormatLineKeepsText(line: String)
    requires !IsBlank(line)
    ensures !IsBullet(line) ==> Strip(FormatLine(line)) == "* " + Strip(line)
    ensures !IsBullet(line) ==> Strip(FormatLine(line)) == FormatLine(line)
    ensures IsBullet(line) ==> Strip(FormatLine(line)) == Strip(line)
  {
    if !IsBullet(line) {
      MarkedLine(line);
    }
  }

  /** What prefixing the marker does to a line that is not a bullet. */
  lemma MarkedLine(line: String)
    requires !IsBullet(line)
    ensures var r := "* " + Strip(line);
      && IsBullet(r) && !IsBlank(r) && r != line
      && ('\n' !in line ==> '\n' !in r)
      && (!IsBlank(line) ==> Strip(r) == r)
  {
    var s := Strip(line);
    MarkedIsBullet(s);
    MarkedDiffers(line);
    if '\n' !in line {
      MarkedNoNewline(line);
    }
    if !IsBlank(line) {
      MarkedStripped(s);
    }
  }

  lemma MarkedDiffers(line: String)
    requires !IsBullet(line)
    ensures "* " + Strip(line) != line
  {
    if "* " + Strip(line) == line {
      StripKeepsFirst(line);
    }
  }

  lemma MarkedNoNewline(line: String)
    requires '\n' !in line
    ensures '\n' !in "* " + Strip(line)
  {
    var s := Strip(line);
    StripIsInfix(line);
    assert '\n' !in multiset(s);
    assert '\n' !in "* ";
  }

  /** `"* " + s` is a non-blank bullet line whatever `s` is. */
  lemma MarkedIsBullet(s: String)
    ensures IsBullet("* " + s) && !IsBlank("* " + s)
  {
    var r := "* " + s;
    assert r[0] == '*';
    StripKeepsFirst(r);
    assert Strip(r)[..1] == "*";
  }

  /** Prefixing the marker to a non-empty stripped text gives a stripped text. */
  lemma MarkedStripped(s: String)
    requires s != [] && IsStripped(s)
    ensures Strip("* " + s) == "* " + s
  {
    var r := "* " + s;
    assert r[|r| - 1] == s[|s| - 1];
    assert IsStripped(r);
    assert [] + r + [] == r;
    StripUnique([], r, []);
  }

  /** The lines that survive the comprehension's filter, in order. */
  function NonBlank(lines: seq<String>): (r: seq<String>)
    ensures forall i :: 0 <= i < |r| ==> !IsBlank(r[i])
    ensures multiset(r) <= multiset(lines)
  {
    if |lines| == 0 then
      []
    else
      assert lines == [lines[0]] + lines[1..];
      (if IsBlank(lines[0]) then [] else [lines[0]]) + NonBlank(lines[1..])
  }

  /** Every line is a non-blank bullet line. */
  predicate AllBullets(lines: seq<String>) {
    forall i :: 0 <= i < |lines| ==> IsBullet(lines[i]) && !IsBlank(lines[i])
  }

  /** No line holds a line break. */
  predicate NoLineBreaks(lines: seq<String>) {
    forall i :: 0 <= i < |lines| ==> '\n' !in lines[i]
  }

  /** The whole comprehension over the lines of the raw answer. */
  function FormatLines(lines: seq<String>): (r: seq<String>)
    ensures |r| <= |lines|
    ensures AllBullets(r)
    ensures NoLineBreaks(lines) ==> NoLineBreaks(r)
  {
    if |lines| == 0 then
      []
    else
      var head := if IsBlank(lines[0]) then [] else [FormatLine(lines[0])];
      var tail := FormatLines(lines[1..]);
      assert NoLineBreaks(lines) ==> NoLineBreaks(lines[1..]) by {
        if NoLineBreaks(lines) {
          forall i | 0 <= i < |lines| - 1 ensures '\n' !in lines[1..][i] {
            assert lines[1..][i] == lines[i + 1];
          }
        }
      }
      ConcatLines(head, tail);
      head + tail
  }

  lemma ConcatLines(a: seq<String>, b: seq<String>)
    ensures AllBullets(a) && AllBullets(b) ==> AllBullets(a + b)
    ensures NoLineBreaks(a) && NoLineBreaks(b) ==> NoLineBreaks(a + b)
  {
    var r := a + b;
    if AllBullets(a) && AllBullets(b) {
      forall i | 0 <= i < |r| ensures IsBullet(r[i]) && !IsBlank(r[i]) {
        if i < |a| { assert r[i] == a[i]; } else { assert r[i] == b[i - |a|]; }
      }
    }
    if NoLineBreaks(a) && NoLineBreaks(b) {
      forall i | 0 <= i < |r| ensures '\n' !in r[i] {
        if i < |a| { assert r[i] == a[i]; } else { assert r[i] == b[i - |a|]; }
      }
    }
  }

  /** `"\n".join(...)` over the formatted lines of `raw.split("\n")`. */
  function FormatAnswer(raw: String): String
  {
    Join(FormatLines(Split(raw, '\n')), "\n")
  }

  /** The filter is a homomorphism over concatenation: it keeps every
      non-blank line, drops every blank one, and never reorders. */
  lemma {:induction false} NonBlankAppend(a: seq<String>, b: seq<String>)
    ensures NonBlank(a + b) == NonBlank(a) + NonBlank(b)
    decreases |a|
  {
    if a != [] {
      assert (a + b)[1..] == a[1..] + b;
      NonBlankAppend(a[1..], b);
    } else {
      assert a + b == b;
    }
  }

  /** The output lines correspond one-to-one and in order with the non-blank
      input lines: output line `i` is the formatting of non-blank line `i`. */
  lemma {:induction false} FormatLinesCorrespond(lines: seq<String>)
    ensures |FormatLines(lines)| == |NonBlank(lines)|
    ensures forall i :: 0 <= i < |FormatLines(lines)| ==>
              FormatLines(lines)[i] == FormatLine(NonBlank(lines)[i])
    decreases |lines|
  {
    if |lines| > 0 {
      var tail := lines[1..];
      FormatLinesCorrespond(tail);
      var out, kept := FormatLines(lines), NonBlank(lines);
      var out', kept' := FormatLines(tail), NonBlank(tail);
      if IsBlank(lines[0]) {
        assert out == [] + out';
        assert kept == [] + kept';
      } else {
        assert out == [FormatLine(lines[0])] + out';
        assert kept == [lines[0]] + kept';
        forall i | 0 <= i < |out| ensures out[i] == FormatLine(kept[i]) {
          if i > 0 {
            assert out[i] == out'[i - 1];
            assert kept[i] == kept'[i - 1];
          }
        }
      }
    }
  }

  /** Lines that are already non-blank bullets are left exactly as they are. */
  lemma {:induction false} FormatLinesFixed(lines: seq<String>)
    requires AllBullets(lines)
    ensures FormatLines(lines) == lines
    decreases |lines|
  {
    if |lines| > 0 {
      FormatLinesFixed(lines[1..]);
      assert lines == [lines[0]] + lines[1..];
    }
  }

  /** The lines of the formatted answer are exactly the formatted non-blank
      lines of the raw answer; an answer with no non-blank line becomes "". */
  lemma AnswerLines(raw: String)
    ensures FormatLines(Split(raw, '\n')) == [] ==> FormatAnswer(raw) == []
    ensures FormatLines(Split(raw, '\n')) != [] ==>
              Split(FormatAnswer(raw), '\n') == FormatLines(Split(raw, '\n'))
  {
    var lines := FormatLines(Split(raw, '\n'));
    if lines != [] {
      SplitJoin(lines, '\n');
    }
  }

  /** Every line of a non-empty formatted answer, once stripped, starts with
      the bullet marker, and none of them is empty or whitespace-only. */
  lemma AnswerIsBulleted(raw: String)
    ensures FormatAnswer(raw) != [] ==>
              forall line :: line in Split(FormatAnswer(raw), '\n') ==>
                IsBullet(line) && !IsBlank(line)
  {
    AnswerLines(raw);
  }

  /** The answer is empty exactly when every line of the raw text is blank. */
  lemma EmptyAnswer(raw: String)
    ensures FormatAnswer(raw) == [] <==>
              forall line :: line in Split(raw, '\n') ==> IsBlank(line)
  {
    var lines := Split(raw, '\n');
    FormatLinesCorrespond(lines);
    AnswerLines(raw);
    if forall line :: line in lines ==> IsBlank(line) {
      AllBlankFilteredOut(lines);
    } else {
      var line :| line in lines && !IsBlank(line);
      NonBlankKeeps(lines, line);
      assert multiset(NonBlank(lines))[line] > 0;
      assert |NonBlank(lines)| > 0;
      var parts := FormatLines(lines);
      assert Split(FormatAnswer(raw), '\n') == parts;
      assert Split([], '\n') == [[]];
      assert !IsBlank(parts[0]);
      assert IsBlank([]);
    }
  }

  lemma {:induction false} AllBlankFilteredOut(lines: seq<String>)
    requires forall line :: line in lines ==> IsBlank(line)
    ensures NonBlank(lines) == []
    decreases |lines|
  {
    if |lines| > 0 {
      assert lines[0] in lines;
      assert forall line :: line in lines[1..] ==> line in lines;
      AllBlankFilteredOut(lines[1..]);
    }
  }

  lemma {:induction false} NonBlankKeeps(lines: seq<String>, line: String)
    requires line in lines && !IsBlank(line)
    ensures line in multiset(NonBlank(lines))
    decreases |lines|
  {
    if lines[0] != line {
      NonBlankKeeps(lines[1..], line);
    }
  }

  /** Formatting an already formatted answer changes nothing. */
  lemma FormatIdempotent(raw: String)
    ensures FormatAnswer(FormatAnswer(raw)) == FormatAnswer(raw)
  {
    var out := FormatAnswer(raw);
    AnswerLines(raw);
    if out == [] {
      assert Split(out, '\n') == [[]];
      assert IsBlank([]);
      assert FormatLines([[]]) == [];
    } else {
      var lines := FormatLines(Split(raw, '\n'));
      FormatLinesFixed(lines);
    }
  }

  /** A stripped line that does not start with the marker gets it. */
  lemma PlainLine(s: String)
    requires s != [] && IsStripped(s) && s[0] != '*'
    ensures !IsBlank(s) && FormatLine(s) == "* " + s
  {
    assert [] + s + [] == s;
    StripUnique([], s, []);
    assert !IsSpace(s[0]);
    assert s[..1] != "*" by {
      assert s[..1][0] == s[0];
    }
  }

  /** A stripped line that starts with the marker is kept. */
  lemma MarkedAlready(s: String)
    requires s != [] && IsStripped(s) && s[0] == '*'
    ensures !IsBlank(s) && FormatLine(s) == s
  {
    assert [] + s + [] == s;
    StripUnique([], s, []);
    assert s[..1] == "*";
    assert !IsSpace(s[0]);
  }

  /** Three non-empty lines without surrounding whitespace or line breaks
      (a plain line, a bullet line, a plain line), with an empty line between
      the last two: the empty line is dropped, the plain lines get the
      marker, and the bullet line is kept verbatim. The answer
      `"Line one\n* Line two\n\nLine three"` is one instance. */
  lemma FormatExample(one: String, two: String, three: String)
    requires one != [] && IsStripped(one) && one[0] != '*' && '\n' !in one
    requires two != [] && IsStripped(two) && two[0] == '*' && '\n' !in two
    requires three != [] && IsStripped(three) && three[0] != '*' && '\n' !in three
    ensures FormatAnswer(one + "\n" + two + "\n\n" + three)
         == "* " + one + "\n" + two + "\n* " + three
  {
    var lines := [one, two, "", three];
    var out := ["* " + one, two, "* " + three];
    ExampleJoins(one, two, three);
    SplitJoin(lines, '\n');
    ExampleLines(one, two, three);
  }

  /** `FormatAnswer` on `"Line one\n* Line two\n\nLine three"`. */
  lemma FormatLiteralExample()
    ensures FormatAnswer("Line one\n* Line two\n\nLine three")
         == "* Line one\n* Line two\n* Line three"
  {
    LiteralExampleLines("Line one", "* Line two", "Line three",
                        "Line one\n* Line two\n\nLine three", "* Line one\n* Line two\n* Line three");
  }

  /** `FormatAnswer` on `"Line one\n* Line two\n\nLine three"`, with its
      lines named, so that the formatter is
      applied to a concatenation of lines rather than to one string
      literal, which the verifier would otherwise evaluate character by
      character. */
  lemma LiteralExampleLines(one: String, two: String, three: String, raw: String, answer: String)
    requires one == "Line one" && two == "* Line two" && three == "Line three"
    requires raw == one + "\n" + two + "\n\n" + three
    requires answer == "* " + one + "\n" + two + "\n* " + three
    ensures FormatAnswer(raw) == answer
  {
    assert IsStripped(one) by { assert !IsSpace(one[0]) && !IsSpace(one[|one| - 1]); }
    assert IsStripped(two) by { assert !IsSpace(two[0]) && !IsSpace(two[|two| - 1]); }
    assert IsStripped(three) by { assert !IsSpace(three[0]) && !IsSpace(three[|three| - 1]); }
    FormatExample(one, two, three);
  }

  lemma ExampleJoins(one: String, two: String, three: String)
    ensures Join([one, two, "", three], "\n") == one + "\n" + two + "\n\n" + three
    ensures Join(["* " + one, two, "* " + three], "\n") == "* " + one + "\n" + two + "\n* " + three
  {
    var lines := [one, two, "", three];
    var out := ["* " + one, two, "* " + three];
    assert lines[1..][1..] == ["", three];
    assert lines[1..][1..][1..] == [three];
    assert Join(lines[2..], "\n") == "" + "\n" + three;
    assert Join(lines[1..], "\n") == two + "\n" + ("\n" + three);
    assert "\n\n" == "\n" + "\n";
    assert out[1..][1..] == [out[2]];
    assert Join(out[1..], "\n") == two + "\n" + ("* " + three);
    assert "\n* " == "\n" + "* ";
  }

  lemma ExampleLines(one: String, two: String, three: String)
    requires one != [] && IsStripped(one) && one[0] != '*'
    requires two != [] && IsStripped(two) && two[0] == '*'
    requires three != [] && IsStripped(three) && three[0] != '*'
    ensures FormatLines([one, two, "", three]) == ["* " + one, two, "* " + three]
  {
    var lines := [one, two, "", three];
    var out := ["* " + one, two, "* " + three];
    PlainLine(one);
    MarkedAlready(two);
    PlainLine(three);
    assert IsBlank("");
    assert FormatLines(lines[3..]) == [out[2]];
    assert FormatLines(lines[2..]) == [out[2]];
    assert FormatLines(lines[1..]) == out[1..];
  }
}
