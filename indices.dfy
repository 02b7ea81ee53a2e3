/**
 * Reading the `entry_indices` path segment of the delete endpoint: the text
 * is split at every ',' and each part is read with Python's `int()`.
 */
module Indices {
  import opened Wrappers
  import opened Ids
  import opened Text

  /**
   * The ASCII whitespace `str.strip()` and `int()` discard: space, tab, line
   * feed, carriage return, vertical tab, form feed, and the four separators
   * 0x1C to 0x1F that Python also counts as whitespace.
   */
  predicate IsSpace(ch: char)
  {
    || ch == ' ' || ch == '\t' || ch == '\n' || ch == '\r' || ch == '\U{000B}' || ch == '\U{000C}'
    || '\U{001C}' <= ch <= '\U{001F}'
  }

  /** `s` without its leading whitespace. */
  function TrimStart(s: string): (t: string)
    ensures |t| <= |s| && t == s[|s| - |t|..]
    ensures t != [] ==> !IsSpace(t[0])
  {
    if s != [] && IsSpace(s[0]) then TrimStart(s[1..]) else s
  }

  /** `s` without its trailing whitespace. */
  function TrimEnd(s: string): (t: string)
    ensures t <= s
    ensures t != [] ==> !IsSpace(t[|t| - 1])
  {
    if s != [] && IsSpace(s[|s| - 1]) then TrimEnd(s[..|s| - 1]) else s
  }

  /** What the leading trim removes is whitespace, so the result is `s` less its blank front. */
  lemma {:induction false} TrimStartRemovesSpace(s: string)
    ensures forall i :: 0 <= i < |s| - |TrimStart(s)| ==> IsSpace(s[i])
  {
    if s != [] && IsSpace(s[0]) {
      TrimStartRemovesSpace(s[1..]);
      forall i | 1 <= i < |s| - |TrimStart(s)|
        ensures IsSpace(s[i])
      {
        assert s[1..][i - 1] == s[i];
      }
    }
  }

  /** What the trailing trim removes is whitespace, so the result is `s` less its blank end. */
  lemma {:induction false} TrimEndRemovesSpace(s: string)
    ensures forall i :: |TrimEnd(s)| <= i < |s| ==> IsSpace(s[i])
  {
    if s != [] && IsSpace(s[|s| - 1]) {
      TrimEndRemovesSpace(s[..|s| - 1]);
      forall i | |TrimEnd(s)| <= i < |s| - 1
        ensures IsSpace(s[i])
      {
        assert s[..|s| - 1][i] == s[i];
      }
    }
  }

  function Strip(s: string): string
  {
    TrimEnd(TrimStart(s))
  }

  /**
   * Digits with single underscores between them, as `int()` accepts:
   * it starts and ends with a digit and every '_' is followed by a digit.
   */
  predicate Grouped(s: string)
  {
    && s != [] && IsDigit(s[0]) && IsDigit(s[|s| - 1])
    && forall i :: 0 <= i < |s| ==> IsDigit(s[i]) || (s[i] == '_' && i + 1 < |s| && IsDigit(s[i + 1]))
  }

  /**
   * Python's `int(s)` on a decimal string: surrounding whitespace is ignored,
   * an optional sign is allowed, and the digits may be grouped by single
   * underscores. Anything else is the ValueError, here None.
   */
  function ParseInt(s: string): Option<int>
  {
    ParseStripped(Strip(s))
  }

  /** `int()` on text already stripped of surrounding whitespace. */
  function ParseStripped(t: string): Option<int>
  {
    if t != [] && (t[0] == '-' || t[0] == '+') then
      match ParseUnsigned(t[1..])
      case Some(v) => Some(if t[0] == '-' then -(v as int) else v as int)
      case None => None
    else ParseUnsigned(t)
  }

  /** Grouped digits without a sign. */
  function ParseUnsigned(t: string): Option<nat>
  {
    if Grouped(t) then Some(DecimalValue(DigitsOnly(t))) else None
  }

  /** A plain decimal string reads as its value. */
  lemma {:induction false} ParseUnsignedDecimal(n: nat)
    ensures ParseUnsigned(DecimalDigits(n)) == Some(n)
  {
    var d := DecimalDigits(n);
    DecimalRoundTrip(n);
    DigitsOnlyOfDigits(d);
    assert Grouped(d);
  }

  /** `int(str(n))` gives back `n`. */
  lemma {:induction false} ParseIntDecimal(n: nat)
    ensures ParseInt(DecimalDigits(n)) == Some(n)
  {
    var d := DecimalDigits(n);
    ParseUnsignedDecimal(n);
    StripUnpadded(d);
  }

  /** `int(str(-n))` gives back `-n`. */
  lemma {:induction false} ParseIntNegative(n: nat)
    ensures ParseInt("-" + DecimalDigits(n)).Some?
    ensures ParseInt("-" + DecimalDigits(n)).value == -(n as int)
  {
    var d := DecimalDigits(n);
    ParseUnsignedDecimal(n);
    var m := "-" + d;
    assert m[1..] == d;
    assert m[|m| - 1] == d[|d| - 1];
    StripUnpadded(m);
    assert ParseStripped(m) == Some(-(n as int));
  }

  /** Text that neither starts nor ends with whitespace is its own stripped form. */
  lemma StripUnpadded(s: string)
    requires s != [] && !IsSpace(s[0]) && !IsSpace(s[|s| - 1])
    ensures Strip(s) == s
  {
  }

  /** Whitespace around the text does not change what `int()` reads. */
  lemma {:induction false} ParseIntPadded(s: string)
    ensures ParseInt(" " + s + " ") == ParseInt(s)
  {
    StripPadded(s);
  }

  /** Stripping `s` with a space on each side is stripping `s`. */
  lemma {:induction false} StripPadded(s: string)
    ensures Strip(" " + s + " ") == Strip(s)
  {
    assert (" " + s + " ")[1..] == s + " ";
    TrimStartSpaceEnd(s);
    if TrimStart(s) != [] {
      var x := TrimStart(s);
      assert (x + " ")[..|x|] == x;
    }
  }

  /** Trimming the front of `s + " "` is trimming the front of `s`, keeping the space unless nothing else is left. */
  lemma {:induction false} TrimStartSpaceEnd(s: string)
    ensures TrimStart(s + " ") == if TrimStart(s) == [] then [] else TrimStart(s) + " "
  {
    if s != [] {
      assert (s + " ")[0] == s[0];
      if IsSpace(s[0]) {
        assert (s + " ")[1..] == s[1..] + " ";
        TrimStartSpaceEnd(s[1..]);
      }
    } else {
      assert TrimStart(" "[1..]) == [];
    }
  }

  /** Every part read with `int()`; None as soon as one part is not an integer. */
  function ParseAll(parts: seq<string>): (r: Option<seq<int>>)
    ensures r.None? <==> exists i :: 0 <= i < |parts| && ParseInt(parts[i]).None?
    ensures r.Some? ==> |r.value| == |parts| && forall i :: 0 <= i < |parts| ==> ParseInt(parts[i]) == Some(r.value[i])
  {
    var read := seq(|parts|, i requires 0 <= i < |parts| => ParseInt(parts[i]));
    assert forall i :: 0 <= i < |parts| ==> read[i] == ParseInt(parts[i]);
    AllRead(read)
  }

  /** The values of a list of readings, None when some reading failed. */
  function AllRead(read: seq<Option<int>>): (r: Option<seq<int>>)
    ensures r.None? <==> exists i :: 0 <= i < |read| && read[i].None?
    ensures r.Some? ==> |r.value| == |read| && forall i :: 0 <= i < |read| ==> read[i] == Some(r.value[i])
  {
    if read == [] then Some([])
    else
      match read[0]
      case None => None
      case Some(v) =>
        var rest := AllRead(read[1..]);
        assert forall i :: 1 <= i < |read| ==> read[1..][i - 1] == read[i];
        if rest.None? then
          var i :| 0 <= i < |read| - 1 && read[1..][i].None?;
          assert read[i + 1].None?;
          None
        else
          Some([v] + rest.value)
  }

  /** `[int(i) for i in text.split(",")]`. */
  function ParseIndices(text: string): Option<seq<int>>
  {
    ParseAll(Split(text, ","))
  }

  /** The comma-separated decimal notation of a list of positions. */
  function IndexText(xs: seq<nat>): string
  {
    Join(seq(|xs|, i requires 0 <= i < |xs| => DecimalDigits(xs[i])), ",")
  }

  /** A non-empty list of positions written out comma-separated reads back as itself. */
  lemma {:induction false} ParseIndicesRoundTrip(xs: seq<nat>)
    requires |xs| >= 1
    ensures ParseIndices(IndexText(xs)) == Some(xs)
  {
    var parts := seq(|xs|, i requires 0 <= i < |xs| => DecimalDigits(xs[i]));
    forall k | 0 <= k < |parts| ensures ',' !in parts[k] {
      assert AllDigits(parts[k]);
    }
    SplitJoinOn(parts, ',');
    forall i | 0 <= i < |parts| ensures ParseInt(parts[i]) == Some(xs[i]) {
      ParseIntDecimal(xs[i]);
    }
    var r := ParseAll(parts);
    assert r.Some?;
    assert r.value == xs;
  }
}
