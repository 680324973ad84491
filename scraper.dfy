/**
 * The line-cleaning tail of `fetch_page_text` in backend/scraper_test.py:
 * the text extracted from the page is split into lines, every line is
 * stripped, the empty ones are dropped and the rest are joined with `"\n"`.
 * The browser session and the HTML parsing that produce the text are not
 * modelled; the text is the input.
 */
module Scraper {
  import Text

  const NEWLINE: char := '\n'

  /**
   * `text.splitlines()`, taking `"\n"` as the only line boundary: the pieces
   * between newlines, where a final newline ends the last line instead of
   * starting an empty one (so `""` has no lines at all).
   */
  function SplitLines(text: string): (lines: seq<string>)
    ensures text != [] ==> lines != []
    ensures forall k :: 0 <= k < |lines| ==> NEWLINE !in lines[k]
  {
    var parts := Text.Split(text, NEWLINE);
    if parts[|parts| - 1] == [] then parts[..|parts| - 1] else parts
  }

  /** Joining the lines gives back the text, less the newline that ended it, if any. */
  lemma {:induction false} JoinSplitLines(text: string)
    ensures text == [] ==> SplitLines(text) == []
    ensures text != [] && text[|text| - 1] == NEWLINE ==> Text.Join(SplitLines(text), NEWLINE) + [NEWLINE] == text
    ensures text != [] && text[|text| - 1] != NEWLINE ==> Text.Join(SplitLines(text), NEWLINE) == text
  {
    var parts := Text.Split(text, NEWLINE);
    var n := |parts|;
    Text.JoinSplit(text, NEWLINE);
    if parts[n - 1] == [] {
      if n == 1 {
        assert text == [];
      } else {
        assert parts == parts[..n - 1] + [parts[n - 1]];
        Text.JoinSnoc(parts[..n - 1], [], NEWLINE);
        assert text == Text.Join(parts[..n - 1], NEWLINE) + [NEWLINE];
      }
    } else {
      var last := parts[n - 1];
      if n > 1 {
        assert parts == parts[..n - 1] + [last];
        Text.JoinSnoc(parts[..n - 1], last, NEWLINE);
        assert text[|text| - 1] == last[|last| - 1];
      } else {
        assert text == last;
      }
      assert last[|last| - 1] in last;
    }
  }

  /** `[line.strip() for line in lines]`. */
  function StripAll(lines: seq<string>): (stripped: seq<string>)
    ensures |stripped| == |lines|
    ensures forall k :: 0 <= k < |stripped| ==> Text.Trimmed(stripped[k], Text.PyWhitespace)
  {
    seq(|lines|, k requires 0 <= k < |lines| => Text.Trim(lines[k], Text.PyWhitespace))
  }

  /** `[line for line in lines if line]`: an empty string is falsy. */
  function DropBlank(lines: seq<string>): (kept: seq<string>)
    ensures |kept| <= |lines|
    ensures forall k :: 0 <= k < |kept| ==> kept[k] != []
    ensures forall x :: x in kept <==> x in lines && x != []
    decreases |lines|
  {
    if lines == [] then []
    else if lines[0] == [] then DropBlank(lines[1..])
    else [lines[0]] + DropBlank(lines[1..])
  }

  /** The two comprehensions of `fetch_page_text`, one after the other. */
  function CleanLines(lines: seq<string>): (cleaned: seq<string>)
    ensures |cleaned| <= |lines|
    ensures forall k :: 0 <= k < |cleaned| ==> cleaned[k] != [] && Text.Trimmed(cleaned[k], Text.PyWhitespace)
  {
    var stripped := StripAll(lines);
    var kept := DropBlank(stripped);
    assert forall x :: x in kept ==> Text.Trimmed(x, Text.PyWhitespace) by {
      forall x | x in kept ensures Text.Trimmed(x, Text.PyWhitespace) {
        var j :| 0 <= j < |stripped| && stripped[j] == x;
      }
    }
    kept
  }

  /** Every line kept is non-empty, free of newlines, and equal to its own strip. */
  predicate CleanPieces(lines: seq<string>)
  {
    forall k :: 0 <= k < |lines| ==>
      && lines[k] != [] && NEWLINE !in lines[k]
      && Text.Trim(lines[k], Text.PyWhitespace) == lines[k]
  }

  /** The cleaned lines are non-empty, have no surrounding whitespace, and are exactly the non-empty stripped input lines. */
  lemma {:induction false} CleanLinesShape(lines: seq<string>)
    ensures forall k :: 0 <= k < |CleanLines(lines)| ==>
      CleanLines(lines)[k] != [] && Text.Trim(CleanLines(lines)[k], Text.PyWhitespace) == CleanLines(lines)[k]
    ensures forall x :: x in CleanLines(lines) <==>
      x != [] && exists i :: 0 <= i < |lines| && Text.Trim(lines[i], Text.PyWhitespace) == x
  {
    var stripped := StripAll(lines);
    var cleaned := CleanLines(lines);
    forall k | 0 <= k < |cleaned| ensures Text.Trim(cleaned[k], Text.PyWhitespace) == cleaned[k] {
      assert cleaned[k] in stripped;
      var j :| 0 <= j < |stripped| && stripped[j] == cleaned[k];
      Text.TrimFixedPoint(stripped[j], Text.PyWhitespace);
    }
    forall x ensures x in cleaned <==> x != [] && exists i :: 0 <= i < |lines| && Text.Trim(lines[i], Text.PyWhitespace) == x {
      if x != [] && exists i :: 0 <= i < |lines| && Text.Trim(lines[i], Text.PyWhitespace) == x {
        var i :| 0 <= i < |lines| && Text.Trim(lines[i], Text.PyWhitespace) == x;
        assert stripped[i] == x;
      }
    }
  }

  /** Dropping blanks distributes over concatenation, so relative order is kept. */
  lemma {:induction false} DropBlankConcat(a: seq<string>, b: seq<string>)
    ensures DropBlank(a + b) == DropBlank(a) + DropBlank(b)
    decreases |a|
  {
    if a == [] {
      assert a + b == b;
    } else {
      assert (a + b)[1..] == a[1..] + b;
      DropBlankConcat(a[1..], b);
    }
  }

  /** Stripping works line by line. */
  lemma StripAllConcat(a: seq<string>, b: seq<string>)
    ensures StripAll(a + b) == StripAll(a) + StripAll(b)
  {
    var l, r := StripAll(a + b), StripAll(a) + StripAll(b);
    forall k | 0 <= k < |l| ensures l[k] == r[k] {
      if k < |a| {
        assert (a + b)[k] == a[k];
      } else {
        assert (a + b)[k] == b[k - |a|];
      }
    }
  }

  /**
   * The cleaner works line by line: a line contributes its strip when that is
   * non-empty and nothing otherwise, and the contributions keep the input order.
   */
  lemma {:induction false} CleanLinesConcat(a: seq<string>, b: seq<string>)
    ensures CleanLines(a + b) == CleanLines(a) + CleanLines(b)
    ensures CleanLines([]) == []
  {
    StripAllConcat(a, b);
    DropBlankConcat(StripAll(a), StripAll(b));
  }

  /** One line cleans to its strip, or to nothing when the strip is empty. */
  lemma CleanLinesSingle(line: string)
    ensures CleanLines([line]) ==
      if Text.Trim(line, Text.PyWhitespace) == [] then [] else [Text.Trim(line, Text.PyWhitespace)]
  {
    assert StripAll([line]) == [Text.Trim(line, Text.PyWhitespace)];
  }

  /** Lines that are already clean come through unchanged. */
  lemma {:induction false} CleanLinesOfClean(lines: seq<string>)
    requires CleanPieces(lines)
    ensures CleanLines(lines) == lines
    decreases |lines|
  {
    if lines != [] {
      var head, tail := lines[0], lines[1..];
      assert lines == [head] + tail;
      assert CleanPieces(tail) by {
        forall k | 0 <= k < |tail| ensures tail[k] == lines[k + 1] { }
      }
      CleanLinesConcat([head], tail);
      CleanLinesSingle(head);
      CleanLinesOfClean(tail);
    }
  }

  /** The lines of the cleaner's result are clean. */
  lemma {:induction false} CleanLinesClean(text: string)
    ensures CleanPieces(CleanLines(SplitLines(text)))
  {
    var lines := SplitLines(text);
    var cleaned := CleanLines(lines);
    CleanLinesShape(lines);
    forall k | 0 <= k < |cleaned| ensures NEWLINE !in cleaned[k] {
      assert cleaned[k] in cleaned;
      var i :| 0 <= i < |lines| && Text.Trim(lines[i], Text.PyWhitespace) == cleaned[k];
      Text.TrimExcludes(lines[i], Text.PyWhitespace, NEWLINE);
    }
  }

  /**
   * What `fetch_page_text` returns for the text extracted from the page: it has
   * no empty line between separators, no leading or trailing newline, and no
   * leading or trailing whitespace at all.
   */
  function CleanText(text: string): (cleaned: string)
    ensures forall i :: 0 <= i < |cleaned| - 1 ==> !(cleaned[i] == NEWLINE && cleaned[i + 1] == NEWLINE)
    ensures cleaned != [] ==> cleaned[0] != NEWLINE && cleaned[|cleaned| - 1] != NEWLINE
    ensures Text.Trim(cleaned, Text.PyWhitespace) == cleaned
  {
    var lines := CleanLines(SplitLines(text));
    CleanLinesClean(text);
    Text.JoinSeparated(lines, NEWLINE);
    var r := Text.Join(lines, NEWLINE);
    if r != [] then
      Text.TrimFixedPoint(lines[0], Text.PyWhitespace);
      Text.TrimFixedPoint(lines[|lines| - 1], Text.PyWhitespace);
      Text.TrimFixedPoint(r, Text.PyWhitespace);
      r
    else r
  }

  /** Cleaning the cleaner's result again changes nothing. */
  lemma {:induction false} CleanTextIdempotent(text: string)
    ensures CleanText(CleanText(text)) == CleanText(text)
  {
    var lines := CleanLines(SplitLines(text));
    var r := Text.Join(lines, NEWLINE);
    CleanLinesClean(text);
    if lines == [] {
      assert Text.Split(r, NEWLINE) == [[]];
      assert SplitLines(r) == [];
    } else {
      Text.SplitJoin(lines, NEWLINE);
      assert SplitLines(r) == lines;
    }
    CleanLinesOfClean(lines);
  }

  /** The cleaner keeps no line exactly when every input line is whitespace. */
  lemma {:induction false} CleanLinesEmpty(lines: seq<string>)
    ensures CleanLines(lines) == [] <==> Text.EachAllIn(lines, Text.PyWhitespace)
    decreases |lines|
  {
    if lines == [] {
      assert CleanLines(lines) == [];
    } else {
      assert lines == [lines[0]] + lines[1..];
      CleanLinesConcat([lines[0]], lines[1..]);
      CleanLinesSingle(lines[0]);
      CleanLinesEmpty(lines[1..]);
      Text.EachAllInCons(lines[0], lines[1..], Text.PyWhitespace);
    }
  }

  /** Every line is whitespace exactly when the whole text is whitespace and newlines. */
  lemma {:induction false} SplitLinesAllIn(text: string)
    ensures Text.EachAllIn(SplitLines(text), Text.PyWhitespace) <==> Text.AllIn(text, Text.PyWhitespace)
  {
    var parts := Text.Split(text, NEWLINE);
    var lines := SplitLines(text);
    Text.SplitAllIn(text, NEWLINE, Text.PyWhitespace);
    if lines != parts {
      assert parts == lines + [parts[|parts| - 1]];
      assert parts[|parts| - 1] == [];
      assert Text.AllIn(parts[|parts| - 1], Text.PyWhitespace);
      assert forall k :: 0 <= k < |lines| ==> parts[k] == lines[k];
    }
  }

  /** The result is empty exactly when the text holds nothing but whitespace and newlines. */
  lemma {:induction false} CleanTextBlank(text: string)
    ensures CleanText(text) == [] <==> Text.AllIn(text, Text.PyWhitespace)
  {
    var lines := SplitLines(text);
    CleanLinesClean(text);
    Text.JoinSeparated(CleanLines(lines), NEWLINE);
    CleanLinesEmpty(lines);
    SplitLinesAllIn(text);
  }
}
