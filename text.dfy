/**
 * The string operations the program leans on: ASCII lower-casing for the
 * case-insensitive search, substring search, and `sep.join(parts)` /
 * `s.split(sep)` for the " / "-separated function paths.
 */
module Text {
  import opened Wrappers

  function LowerChar(c: char): char
  {
    if 'A' <= c <= 'Z' then (c as int + 32) as char else c
  }

  /**
   * `s` with its ASCII capitals lowered; every other character as it is. The
   * result holds no ASCII capital, so lowering it again changes nothing.
   */
  function Lower(s: string): (r: string)
    ensures |r| == |s|
    ensures forall i :: 0 <= i < |s| ==> r[i] == LowerChar(s[i])
    ensures forall i :: 0 <= i < |s| ==>
      if 'A' <= s[i] <= 'Z' then r[i] as int == s[i] as int + 32 else r[i] == s[i]
    ensures forall i :: 0 <= i < |r| ==> !('A' <= r[i] <= 'Z')
  {
    seq(|s|, i requires 0 <= i < |s| => LowerChar(s[i]))
  }

  /** Lowering is idempotent, and two texts that differ only in ASCII case lower alike. */
  lemma {:induction false} LowerIdempotent(s: string)
    ensures Lower(Lower(s)) == Lower(s)
  {
  }

  /** `pattern` occurs in `s` at position `j`. */
  predicate OccursAt(s: string, pattern: string, j: nat)
  {
    j + |pattern| <= |s| && s[j..j + |pattern|] == pattern
  }

  /** `pattern in s`. */
  predicate Contains(s: string, pattern: string)
    decreases |s|
  {
    pattern <= s || (s != [] && Contains(s[1..], pattern))
  }

  /** `Contains` holds exactly when the pattern occurs at some position. */
  lemma {:induction false} ContainsOccurs(s: string, pattern: string)
    ensures Contains(s, pattern) <==> exists j: nat :: OccursAt(s, pattern, j)
  {
    if pattern <= s {
      assert OccursAt(s, pattern, 0);
    } else if s != [] {
      ContainsOccurs(s[1..], pattern);
      if Contains(s[1..], pattern) {
        var j: nat :| OccursAt(s[1..], pattern, j);
        assert s[j + 1..j + 1 + |pattern|] == s[1..][j..j + |pattern|];
        assert OccursAt(s, pattern, j + 1);
      }
      if j: nat :| OccursAt(s, pattern, j) {
        assert j != 0;
        assert s[1..][j - 1..j - 1 + |pattern|] == s[j..j + |pattern|];
        assert OccursAt(s[1..], pattern, j - 1);
      }
    } else {
      assert pattern != [];
    }
  }

  /** The case-insensitive test of `str.contains(pattern, case=False)` on a literal pattern. */
  predicate ContainsIgnoringCase(s: string, pattern: string)
  {
    Contains(Lower(s), Lower(pattern))
  }

  // ---------------------------------------------------------------------------
  // Joining and splitting paths
  // ---------------------------------------------------------------------------

  const PathSeparator := " / "

  /** `sep.join(parts)`. */
  function Join(parts: seq<string>, sep: string): string
  {
    if parts == [] then ""
    else if |parts| == 1 then parts[0]
    else parts[0] + sep + Join(parts[1..], sep)
  }

  /** The first position where `sep` occurs in `s`, if any. */
  function Find(s: string, sep: string): (r: Option<nat>)
    requires |sep| > 0
    ensures r.Some? ==> OccursAt(s, sep, r.value)
    ensures r.Some? ==> forall j: nat :: j < r.value ==> !OccursAt(s, sep, j)
    ensures r.None? ==> forall j: nat :: !OccursAt(s, sep, j)
    decreases |s|
  {
    if |s| < |sep| then None
    else if sep <= s then Some(0)
    else
      var rest := Find(s[1..], sep);
      assert s[0..|sep|] == s[..|sep|];
      forall j: nat | 1 <= j && OccursAt(s, sep, j) ensures OccursAt(s[1..], sep, j - 1) {
        assert s[1..][j - 1..j - 1 + |sep|] == s[j..j + |sep|];
      }
      match rest
      case None => None
      case Some(i) =>
        assert s[i + 1..i + 1 + |sep|] == s[1..][i..i + |sep|];
        Some(i + 1)
  }

  /** `s.split(sep)`: the pieces between occurrences of `sep`, left to right. */
  function Split(s: string, sep: string): (parts: seq<string>)
    requires |sep| > 0
    ensures |parts| >= 1
    decreases |s|
  {
    match Find(s, sep)
    case None => [s]
    case Some(i) => [s[..i]] + Split(s[i + |sep|..], sep)
  }

  /** Text with no '/' in it. */
  predicate NoSlash(s: string)
  {
    forall i :: 0 <= i < |s| ==> s[i] != '/'
  }

  /**
   * Splitting a " / "-joined path gives back its parts, provided no part holds
   * a '/': then every " / " in the joined text is one of the separators.
   */
  lemma {:induction false} SplitJoin(parts: seq<string>)
    requires |parts| >= 1
    requires forall k :: 0 <= k < |parts| ==> NoSlash(parts[k])
    ensures Split(Join(parts, PathSeparator), PathSeparator) == parts
  {
    var sep := PathSeparator;
    if |parts| == 1 {
      NoSeparatorInside(parts[0]);
    } else {
      var rest := Join(parts[1..], sep);
      var s := parts[0] + sep + rest;
      assert Join(parts, sep) == s;
      FirstSeparator(parts[0], rest);
      assert s[..|parts[0]|] == parts[0];
      assert s[|parts[0]| + |sep|..] == rest;
      assert Split(s, sep) == [parts[0]] + Split(rest, sep);
      SplitJoin(parts[1..]);
      assert parts == [parts[0]] + parts[1..];
    }
  }

  /** Text without '/' contains no separator. */
  lemma {:induction false} NoSeparatorInside(a: string)
    requires NoSlash(a)
    ensures Find(a, PathSeparator) == None
  {
    var sep := PathSeparator;
    forall j: nat ensures !OccursAt(a, sep, j) {
      if j + 3 <= |a| {
        assert a[j..j + 3][1] == a[j + 1];
      }
    }
  }

  /** In `a + " / " + b` with no '/' in `a`, the first separator is the one after `a`. */
  lemma {:induction false} FirstSeparator(a: string, b: string)
    requires NoSlash(a)
    ensures Find(a + PathSeparator + b, PathSeparator) == Some(|a|)
  {
    var sep := PathSeparator;
    var s := a + sep + b;
    assert s[|a|..|a| + 3] == sep;
    assert OccursAt(s, sep, |a|);
    forall j: nat | j < |a| ensures !OccursAt(s, sep, j) {
      assert s[j..j + 3][1] == s[j + 1];
      if j + 1 < |a| {
        assert s[j + 1] == a[j + 1];
      } else {
        assert s[j + 1] == sep[0];
      }
    }
    var r := Find(s, sep);
    assert r.Some? && r.value <= |a|;
  }

  /**
   * Splitting text joined with a one-character separator gives back its
   * parts, provided no part holds that character.
   */
  lemma {:induction false} SplitJoinOn(parts: seq<string>, c: char)
    requires |parts| >= 1
    requires forall k :: 0 <= k < |parts| ==> c !in parts[k]
    ensures Split(Join(parts, [c]), [c]) == parts
  {
    if |parts| == 1 {
      NoCharInside(parts[0], c);
    } else {
      var rest := Join(parts[1..], [c]);
      var s := parts[0] + [c] + rest;
      assert Join(parts, [c]) == s;
      FirstChar(parts[0], rest, c);
      assert s[..|parts[0]|] == parts[0];
      assert s[|parts[0]| + 1..] == rest;
      assert Split(s, [c]) == [parts[0]] + Split(rest, [c]);
      SplitJoinOn(parts[1..], c);
      assert parts == [parts[0]] + parts[1..];
    }
  }

  /** Text without `c` contains no occurrence of it. */
  lemma {:induction false} NoCharInside(a: string, c: char)
    requires c !in a
    ensures Find(a, [c]) == None
  {
    forall j: nat ensures !OccursAt(a, [c], j) {
      if j + 1 <= |a| {
        assert a[j..j + 1][0] == a[j];
      }
    }
  }

  /** In `a + [c] + b` with no `c` in `a`, the first `c` is the one after `a`. */
  lemma {:induction false} FirstChar(a: string, b: string, c: char)
    requires c !in a
    ensures Find(a + [c] + b, [c]) == Some(|a|)
  {
    var s := a + [c] + b;
    assert s[|a|..|a| + 1] == [c];
    assert OccursAt(s, [c], |a|);
    forall j: nat | j < |a| ensures !OccursAt(s, [c], j) {
      assert s[j..j + 1][0] == s[j];
      assert s[j] == a[j];
    }
    var r := Find(s, [c]);
    assert r.Some? && r.value <= |a|;
  }
}
