/**
 * String primitives shared by the frontend and the backend: trimming with a
 * given whitespace set (JavaScript's `String.prototype.trim` and Python's
 * `str.strip` differ only in that set), splitting and joining on a separator,
 * and the decimal rendering of integers.
 */
module Text {

  /** Whose notion of whitespace a trim uses. */
  datatype Whitespace =
    | JsWhitespace  // ECMAScript's WhiteSpace and LineTerminator, removed by `String.prototype.trim`
    | PyWhitespace  // the code points for which Python's `str.isspace` holds, removed by `str.strip`

  /** Whether `c` is whitespace in the sense of `ws`. */
  predicate IsSpace(ws: Whitespace, c: char)
  {
    || c == '\t' || c == '\n' || c == '\U{000B}' || c == '\U{000C}' || c == '\r' || c == ' '
    || c == '\U{00A0}' || c == '\U{1680}' || '\U{2000}' <= c <= '\U{200A}'
    || c == '\U{2028}' || c == '\U{2029}' || c == '\U{202F}' || c == '\U{205F}' || c == '\U{3000}'
    || (ws == JsWhitespace && c == '\U{FEFF}')
    || (ws == PyWhitespace && ('\U{001C}' <= c <= '\U{001F}' || c == '\U{0085}'))
  }

  /** Every character of `s` is whitespace in the sense of `ws`. */
  predicate AllIn(s: string, ws: Whitespace)
  {
    forall i :: 0 <= i < |s| ==> IsSpace(ws, s[i])
  }

  /** `s` neither starts nor ends with whitespace in the sense of `ws`. */
  predicate Trimmed(s: string, ws: Whitespace)
  {
    s == [] || (!IsSpace(ws, s[0]) && !IsSpace(ws, s[|s| - 1]))
  }

  lemma AllInConcat(a: string, b: string, ws: Whitespace)
    ensures AllIn(a + b, ws) <==> AllIn(a, ws) && AllIn(b, ws)
  {
    if AllIn(a, ws) && AllIn(b, ws) {
      forall i | 0 <= i < |a + b| ensures IsSpace(ws, (a + b)[i]) {
        if i >= |a| { assert (a + b)[i] == b[i - |a|]; }
      }
    }
    if AllIn(a + b, ws) {
      forall i | 0 <= i < |a| ensures IsSpace(ws, a[i]) {
        assert (a + b)[i] == a[i];
      }
      forall i | 0 <= i < |b| ensures IsSpace(ws, b[i]) {
        assert (a + b)[|a| + i] == b[i];
      }
    }
  }

  /** Dropping a leading whitespace character keeps a string all-whitespace or not. */
  lemma AllInTail(s: string, ws: Whitespace)
    requires s != [] && IsSpace(ws, s[0])
    ensures AllIn(s, ws) <==> AllIn(s[1..], ws)
  {
    assert s == [s[0]] + s[1..];
    AllInConcat([s[0]], s[1..], ws);
  }

  /** Dropping a trailing whitespace character keeps a string all-whitespace or not. */
  lemma AllInInit(s: string, ws: Whitespace)
    requires s != [] && IsSpace(ws, s[|s| - 1])
    ensures AllIn(s, ws) <==> AllIn(s[..|s| - 1], ws)
  {
    assert s == s[..|s| - 1] + [s[|s| - 1]];
    AllInConcat(s[..|s| - 1], [s[|s| - 1]], ws);
  }

  /**
   * Removes the leading and the trailing whitespace: `trim()` with
   * `JsWhitespace`, `strip()` with `PyWhitespace`. Leading whitespace goes
   * first, then trailing whitespace, one character at a time.
   */
  function Trim(s: string, ws: Whitespace): (r: string)
    ensures Trimmed(r, ws)
    ensures |r| <= |s|
    ensures r == [] <==> AllIn(s, ws)
    decreases |s|
  {
    if s != [] && IsSpace(ws, s[0]) then
      AllInTail(s, ws);
      Trim(s[1..], ws)
    else if s != [] && IsSpace(ws, s[|s| - 1]) then
      AllInInit(s, ws);
      Trim(s[..|s| - 1], ws)
    else s
  }

  /** `Trim` takes off exactly an all-whitespace prefix and suffix around a trimmed core. */
  lemma {:induction false} TrimUnique(p: string, r: string, q: string, ws: Whitespace)
    requires AllIn(p, ws) && AllIn(q, ws) && Trimmed(r, ws)
    ensures Trim(p + r + q, ws) == r
    decreases |p| + |q|
  {
    var s := p + r + q;
    if p != [] {
      assert s[0] == p[0] && IsSpace(ws, p[0]);
      assert s[1..] == p[1..] + r + q;
      AllInTail(p, ws);
      TrimUnique(p[1..], r, q, ws);
    } else if q != [] && r == [] {
      assert s == q && IsSpace(ws, q[0]);
      assert s[1..] == p + r + q[1..];
      AllInTail(q, ws);
      TrimUnique(p, r, q[1..], ws);
    } else if q != [] {
      assert s[0] == r[0];
      assert s[|s| - 1] == q[|q| - 1] && IsSpace(ws, q[|q| - 1]);
      assert s[..|s| - 1] == p + r + q[..|q| - 1];
      AllInInit(q, ws);
      TrimUnique(p, r, q[..|q| - 1], ws);
    } else {
      assert s == r;
    }
  }

  /** Trimming twice is trimming once. */
  lemma {:induction false} TrimIdempotent(s: string, ws: Whitespace)
    ensures Trim(Trim(s, ws), ws) == Trim(s, ws)
  {
    TrimFixedPoint(Trim(s, ws), ws);
  }

  /** A string equals its own trim exactly when it is `Trimmed`. */
  lemma {:induction false} TrimFixedPoint(s: string, ws: Whitespace)
    ensures Trim(s, ws) == s <==> Trimmed(s, ws)
  {
    if Trimmed(s, ws) && s != [] {
      assert !IsSpace(ws, s[0]) && !IsSpace(ws, s[|s| - 1]);
    }
  }

  /** The position of the first occurrence of `c` in `s`. */
  function IndexOf(s: string, c: char): (i: nat)
    requires c in s
    ensures i < |s| && s[i] == c && c !in s[..i]
  {
    if s[0] == c then 0
    else
      var i := 1 + IndexOf(s[1..], c);
      assert s[..i] == [s[0]] + s[1..][..i - 1];
      i
  }

  /** The pieces of `s` between occurrences of `sep`, as Python's `str.split(sep)`. */
  function Split(s: string, sep: char): (r: seq<string>)
    ensures |r| >= 1
    ensures forall k :: 0 <= k < |r| ==> sep !in r[k]
    decreases |s|
  {
    if sep !in s then [s]
    else
      var i := IndexOf(s, sep);
      [s[..i]] + Split(s[i + 1..], sep)
  }

  /** The number of characters in all the pieces together. */
  function TotalLength(lines: seq<string>): nat
  {
    if lines == [] then 0 else |lines[0]| + TotalLength(lines[1..])
  }

  /** The pieces joined with `sep` between neighbours, as Python's `sep.join(lines)`. */
  function Join(lines: seq<string>, sep: char): (r: string)
    ensures lines != [] ==> |r| == TotalLength(lines) + |lines| - 1
    decreases |lines|
  {
    if |lines| == 0 then []
    else if |lines| == 1 then lines[0]
    else lines[0] + [sep] + Join(lines[1..], sep)
  }

  /** Joining the pieces of a split gives back the original string. */
  lemma {:induction false} JoinSplit(s: string, sep: char)
    ensures Join(Split(s, sep), sep) == s
    decreases |s|
  {
    if sep in s {
      var i := IndexOf(s, sep);
      var rest := Split(s[i + 1..], sep);
      JoinSplit(s[i + 1..], sep);
      assert Split(s, sep)[1..] == rest;
      assert s == s[..i] + [sep] + s[i + 1..];
    }
  }

  /** The first separator of `a + [sep] + b` is the one after `a` when `a` has none. */
  lemma {:induction false} IndexOfAfter(a: string, b: string, sep: char)
    requires sep !in a
    ensures sep in a + [sep] + b
    ensures IndexOf(a + [sep] + b, sep) == |a|
    ensures (a + [sep] + b)[..|a|] == a && (a + [sep] + b)[|a| + 1..] == b
  {
    var s := a + [sep] + b;
    assert s[|a|] == sep;
    var i := IndexOf(s, sep);
    if i < |a| {
      assert false;
    } else if i > |a| {
      assert false;
    }
  }

  /** Splitting a join gives back the pieces, when no piece contains the separator. */
  lemma {:induction false} SplitJoin(lines: seq<string>, sep: char)
    requires |lines| >= 1
    requires forall k :: 0 <= k < |lines| ==> sep !in lines[k]
    ensures Split(Join(lines, sep), sep) == lines
    decreases |lines|
  {
    if |lines| > 1 {
      var head, tail := lines[0], lines[1..];
      var rest := Join(tail, sep);
      var s := Join(lines, sep);
      assert s == head + [sep] + rest;
      IndexOfAfter(head, rest, sep);
      assert Split(s, sep) == [head] + Split(rest, sep);
      forall k | 0 <= k < |tail| ensures sep !in tail[k] {
        assert tail[k] == lines[k + 1];
      }
      SplitJoin(tail, sep);
      assert lines == [head] + tail;
    }
  }

  /** Appending a piece to a non-empty list appends the separator and the piece to the join. */
  lemma {:induction false} JoinSnoc(lines: seq<string>, last: string, sep: char)
    requires |lines| >= 1
    ensures Join(lines + [last], sep) == Join(lines, sep) + [sep] + last
    decreases |lines|
  {
    if |lines| > 1 {
      assert (lines + [last])[1..] == lines[1..] + [last];
      JoinSnoc(lines[1..], last, sep);
    } else {
      assert (lines + [last])[1..] == [last];
    }
  }

  /** Every piece is all whitespace in the sense of `ws`. */
  predicate EachAllIn(pieces: seq<string>, ws: Whitespace)
  {
    forall k :: 0 <= k < |pieces| ==> AllIn(pieces[k], ws)
  }

  lemma EachAllInCons(head: string, tail: seq<string>, ws: Whitespace)
    ensures EachAllIn([head] + tail, ws) <==> AllIn(head, ws) && EachAllIn(tail, ws)
  {
    var pieces := [head] + tail;
    assert pieces[0] == head;
    assert forall k :: 0 <= k < |tail| ==> pieces[k + 1] == tail[k];
  }

  lemma AllInAroundSpace(a: string, sep: char, b: string, ws: Whitespace)
    requires IsSpace(ws, sep)
    ensures AllIn(a + [sep] + b, ws) <==> AllIn(a, ws) && AllIn(b, ws)
  {
    assert a + [sep] + b == a + ([sep] + b);
    AllInConcat(a, [sep] + b, ws);
    AllInConcat([sep], b, ws);
  }

  /** When the separator is whitespace, a string is all whitespace exactly when each of its pieces is. */
  lemma {:induction false} SplitAllIn(s: string, sep: char, ws: Whitespace)
    requires IsSpace(ws, sep)
    ensures AllIn(s, ws) <==> EachAllIn(Split(s, sep), ws)
    decreases |s|
  {
    if sep in s {
      var i := IndexOf(s, sep);
      var rest := s[i + 1..];
      SplitAllIn(rest, sep, ws);
      assert s == s[..i] + [sep] + rest;
      AllInAroundSpace(s[..i], sep, rest, ws);
      EachAllInCons(s[..i], Split(rest, sep), ws);
    } else {
      assert Split(s, sep) == [s] + [];
      EachAllInCons(s, [], ws);
    }
  }

  /** Trimming cannot introduce a character. */
  lemma {:induction false} TrimExcludes(s: string, ws: Whitespace, c: char)
    requires c !in s
    ensures c !in Trim(s, ws)
    decreases |s|
  {
    if s != [] && IsSpace(ws, s[0]) {
      var t := s[1..];
      forall i | 0 <= i < |t| ensures t[i] != c {
        assert t[i] == s[i + 1];
      }
      TrimExcludes(t, ws, c);
    } else if s != [] && IsSpace(ws, s[|s| - 1]) {
      var t := s[..|s| - 1];
      forall i | 0 <= i < |t| ensures t[i] != c {
        assert t[i] == s[i];
      }
      TrimExcludes(t, ws, c);
    }
  }

  /** Every piece is non-empty and free of `sep`, so no two separators are adjacent. */
  predicate SeparatedPieces(lines: seq<string>, sep: char)
  {
    forall k :: 0 <= k < |lines| ==> lines[k] != [] && sep !in lines[k]
  }

  /**
   * A join of non-empty, separator-free pieces has no two adjacent separators and
   * neither starts nor ends with one; it starts with the first piece's first character
   * and ends with the last piece's last character.
   */
  lemma {:induction false} JoinSeparated(lines: seq<string>, sep: char)
    requires SeparatedPieces(lines, sep)
    ensures var r := Join(lines, sep);
      && (r == [] <==> lines == [])
      && (forall i :: 0 <= i < |r| - 1 ==> !(r[i] == sep && r[i + 1] == sep))
      && (r != [] ==> r[0] == lines[0][0] && r[|r| - 1] == lines[|lines| - 1][|lines[|lines| - 1]| - 1])
    decreases |lines|
  {
    if |lines| > 1 {
      var head := lines[0];
      var rest := Join(lines[1..], sep);
      JoinSeparated(lines[1..], sep);
      var r := head + [sep] + rest;
      assert r == Join(lines, sep);
      forall i | 0 <= i < |r| - 1 ensures !(r[i] == sep && r[i + 1] == sep) {
        if i < |head| {
          assert r[i] == head[i];
          assert head[i] in head;
        } else if i == |head| {
          assert r[i + 1] == rest[0] == lines[1][0];
          assert lines[1][0] in lines[1];
        } else {
          assert r[i] == rest[i - |head| - 1] && r[i + 1] == rest[i - |head|];
        }
      }
    }
  }

  /** The decimal digit for `d`. */
  function DigitChar(d: nat): (c: char)
    requires d < 10
    ensures '0' <= c <= '9' && (c as int) - ('0' as int) == d
  {
    (('0' as int) + d) as char
  }

  predicate IsDigits(s: string)
  {
    forall i :: 0 <= i < |s| ==> '0' <= s[i] <= '9'
  }

  /** The number a string of decimal digits denotes. */
  function DigitsValue(s: string): nat
    requires IsDigits(s)
  {
    if s == [] then 0
    else DigitsValue(s[..|s| - 1]) * 10 + ((s[|s| - 1] as int) - ('0' as int))
  }

  /** The decimal rendering of a natural number: digits only, no leading zero. */
  function NatToString(n: nat): (r: string)
    ensures r != [] && IsDigits(r)
    ensures r[0] == '0' ==> n == 0
    decreases n
  {
    if n < 10 then [DigitChar(n)]
    else NatToString(n / 10) + [DigitChar(n % 10)]
  }

  /** Reading back the decimal rendering gives the number. */
  lemma {:induction false} NatToStringValue(n: nat)
    ensures DigitsValue(NatToString(n)) == n
    decreases n
  {
    if n >= 10 {
      NatToStringValue(n / 10);
      var r := NatToString(n);
      assert r[..|r| - 1] == NatToString(n / 10);
    }
  }

  /**
   * JavaScript's `String(v)` for an integer of magnitude at most 2^53 (a safe integer),
   * which is how React renders a number placed in JSX text.
   */
  function IntToString(v: int): (r: string)
    ensures r != []
    ensures r[0] == '-' <==> v < 0
  {
    if v < 0 then "-" + NatToString(-v) else NatToString(v)
  }

  /** The integer a rendering produced by `IntToString` stands for. */
  function IntValue(s: string): (v: int)
    requires s != [] && (s[0] == '-' ==> IsDigits(s[1..])) && (s[0] != '-' ==> IsDigits(s))
  {
    if s[0] == '-' then 0 - DigitsValue(s[1..]) as int else DigitsValue(s)
  }

  /** `IntToString` is undone by `IntValue`, so different scores render differently. */
  lemma IntToStringValue(v: int)
    ensures var r := IntToString(v);
      && r != []
      && (r[0] == '-' ==> IsDigits(r[1..])) && (r[0] != '-' ==> IsDigits(r))
      && IntValue(r) == v
  {
    if v < 0 {
      NatToStringValue(-v);
      assert IntToString(v)[1..] == NatToString(-v);
    } else {
      NatToStringValue(v);
    }
  }
}
