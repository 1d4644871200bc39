/**
 * The session id check `SESSION_ID_REGEX`: the textual layout of a version-7
 * UUID (RFC 9562, section 5.7 for the version field, section 4.1 for the
 * variant field), matched case-insensitively and anchored at both ends.
 */
module SessionId {
  import opened Text

  predicate IsHexDigit(c: char) {
    '0' <= c <= '9' || 'a' <= c <= 'f' || 'A' <= c <= 'F'
  }

  /** What the character at index `i` of a UUIDv7 string may be. */
  predicate FitsPosition(i: int, c: char) {
    if i == 8 || i == 13 || i == 18 || i == 23 then c == '-'
    else if i == 14 then c == '7'
    else if i == 19 then c in "89abAB"
    else IsHexDigit(c)
  }

  /** 36 characters: hex groups 8-4-4-4-12, version `7`, variant one of `89ab` in either case. */
  predicate IsUuidV7(s: string) {
    |s| == 36 && forall i | 0 <= i < 36 :: FitsPosition(i, s[i])
  }

  /** One element of the regular expression: a character class or a literal. */
  datatype CharClass = HexClass | Literal(c: char) | VariantClass

  /** `class{count}` in the regular expression. */
  datatype Repeat = Repeat(cls: CharClass, count: nat)

  /** `^[0-9a-f]{8}-[0-9a-f]{4}-7[0-9a-f]{3}-[89ab][0-9a-f]{3}-[0-9a-f]{12}$`. */
  const SessionIdPattern: seq<Repeat> := [
    Repeat(HexClass, 8), Repeat(Literal('-'), 1),
    Repeat(HexClass, 4), Repeat(Literal('-'), 1),
    Repeat(Literal('7'), 1), Repeat(HexClass, 3), Repeat(Literal('-'), 1),
    Repeat(VariantClass, 1), Repeat(HexClass, 3), Repeat(Literal('-'), 1),
    Repeat(HexClass, 12)
  ]

  /** Matching of one character under the `i` flag (both sides lower-cased). */
  predicate ClassMatches(cls: CharClass, c: char) {
    var l := LowerChar(c);
    match cls
    case HexClass => '0' <= l <= '9' || 'a' <= l <= 'f'
    case Literal(x) => l == LowerChar(x)
    case VariantClass => l in "89ab"
  }

  /** The whole of `s` matches the sequence of repeats, in order. */
  predicate MatchesAll(s: string, pattern: seq<Repeat>)
    decreases pattern
  {
    if pattern == [] then s == []
    else
      var n := pattern[0].count;
      && n <= |s|
      && (forall k | 0 <= k < n :: ClassMatches(pattern[0].cls, s[k]))
      && MatchesAll(s[n..], pattern[1..])
  }

  /** `SESSION_ID_REGEX.test(s)`. */
  predicate MatchesSessionIdRegex(s: string) {
    MatchesAll(s, SessionIdPattern)
  }

  /** The pattern written out one character class per position. */
  function Expand(pattern: seq<Repeat>): (r: seq<CharClass>)
    decreases pattern
  {
    if pattern == [] then []
    else seq(pattern[0].count, _ => pattern[0].cls) + Expand(pattern[1..])
  }

  /** Matching a sequence of repeats is matching its expansion position by position. */
  lemma {:induction false} MatchesAllExpand(s: string, pattern: seq<Repeat>)
    ensures MatchesAll(s, pattern) <==>
              |s| == |Expand(pattern)| && forall i | 0 <= i < |s| :: ClassMatches(Expand(pattern)[i], s[i])
  {
    if pattern != [] {
      var n := pattern[0].count;
      var e := Expand(pattern);
      var rest := Expand(pattern[1..]);
      assert e == seq(n, _ => pattern[0].cls) + rest;
      if n <= |s| {
        MatchesAllExpand(s[n..], pattern[1..]);
        assert forall i | n <= i < |s| :: s[i] == s[n..][i - n];
      }
    }
  }

  /** `class` repeated `n` times. */
  function Run(cls: CharClass, n: nat): (r: seq<CharClass>)
    ensures |r| == n && forall k | 0 <= k < n :: r[k] == cls
  {
    seq(n, _ => cls)
  }

  /** The expansion of the session id pattern, segment by segment. */
  lemma ExpandSessionIdPattern()
    ensures Expand(SessionIdPattern) ==
              Run(HexClass, 8) + [Literal('-')] + Run(HexClass, 4) + [Literal('-')] + [Literal('7')]
              + Run(HexClass, 3) + [Literal('-')] + [VariantClass] + Run(HexClass, 3) + [Literal('-')]
              + Run(HexClass, 12)
  {
    var p := SessionIdPattern;
    assert Expand(p[10..]) == Run(HexClass, 12) by { assert p[10..][1..] == []; }
    assert Expand(p[9..]) == [Literal('-')] + Expand(p[10..]) by { assert p[9..][1..] == p[10..]; }
    assert Expand(p[8..]) == Run(HexClass, 3) + Expand(p[9..]) by { assert p[8..][1..] == p[9..]; }
    assert Expand(p[7..]) == [VariantClass] + Expand(p[8..]) by { assert p[7..][1..] == p[8..]; }
    assert Expand(p[6..]) == [Literal('-')] + Expand(p[7..]) by { assert p[6..][1..] == p[7..]; }
    assert Expand(p[5..]) == Run(HexClass, 3) + Expand(p[6..]) by { assert p[5..][1..] == p[6..]; }
    assert Expand(p[4..]) == [Literal('7')] + Expand(p[5..]) by { assert p[4..][1..] == p[5..]; }
    assert Expand(p[3..]) == [Literal('-')] + Expand(p[4..]) by { assert p[3..][1..] == p[4..]; }
    assert Expand(p[2..]) == Run(HexClass, 4) + Expand(p[3..]) by { assert p[2..][1..] == p[3..]; }
    assert Expand(p[1..]) == [Literal('-')] + Expand(p[2..]) by { assert p[1..][1..] == p[2..]; }
    assert Expand(p) == Run(HexClass, 8) + Expand(p[1..]);
  }

  /** The class the pattern expects at index `i`. */
  function ClassFor(i: int): CharClass {
    if i == 8 || i == 13 || i == 18 || i == 23 then Literal('-')
    else if i == 14 then Literal('7')
    else if i == 19 then VariantClass
    else HexClass
  }

  /** The first five segments of the expanded pattern: `[0-9a-f]{8}-[0-9a-f]{4}-7`. */
  function HeadClasses(): seq<CharClass> {
    Run(HexClass, 8) + [Literal('-')] + Run(HexClass, 4) + [Literal('-')] + [Literal('7')]
  }

  /** The middle five segments: `[0-9a-f]{3}-[89ab][0-9a-f]{3}-`. */
  function MiddleClasses(): seq<CharClass> {
    Run(HexClass, 3) + [Literal('-')] + [VariantClass] + Run(HexClass, 3) + [Literal('-')]
  }

  lemma HeadClassAt(i: int)
    requires 0 <= i < 15
    ensures |HeadClasses()| == 15 && HeadClasses()[i] == ClassFor(i)
  {
    var h := HeadClasses();
    if i < 8 {
      assert h[i] == Run(HexClass, 8)[i];
    } else if 8 < i < 13 {
      assert h[i] == Run(HexClass, 4)[i - 9];
    }
  }

  lemma MiddleClassAt(i: int)
    requires 0 <= i < 9
    ensures |MiddleClasses()| == 9 && MiddleClasses()[i] == ClassFor(i + 15)
  {
    var m := MiddleClasses();
    if i < 3 {
      assert m[i] == Run(HexClass, 3)[i];
    } else if 5 <= i < 8 {
      assert m[i] == Run(HexClass, 3)[i - 5];
    }
  }

  lemma SessionIdClassAt(i: int)
    requires 0 <= i < 36
    ensures |Expand(SessionIdPattern)| == 36 && Expand(SessionIdPattern)[i] == ClassFor(i)
  {
    ExpandSessionIdPattern();
    var a := HeadClasses();
    var b := MiddleClasses();
    var e := Expand(SessionIdPattern);
    HeadClassAt(0);
    MiddleClassAt(0);
    assert e == a + b + Run(HexClass, 12);
    if i < 15 {
      HeadClassAt(i);
      assert e[i] == a[i];
    } else if i < 24 {
      MiddleClassAt(i - 15);
      assert e[i] == b[i - 15];
    } else {
      assert e[i] == Run(HexClass, 12)[i - 24];
    }
  }

  /** Case-insensitive matching of the class at `i` is the UUIDv7 rule for position `i`. */
  lemma ClassForMatches(i: int, c: char)
    ensures ClassMatches(ClassFor(i), c) <==> FitsPosition(i, c)
  {
  }

  /** The regular expression accepts exactly the UUIDv7 layout. */
  lemma RegexIsUuidV7Layout(s: string)
    ensures MatchesSessionIdRegex(s) <==> IsUuidV7(s)
  {
    MatchesAllExpand(s, SessionIdPattern);
    SessionIdClassAt(0);
    if |s| == 36 {
      forall i | 0 <= i < 36
        ensures ClassMatches(Expand(SessionIdPattern)[i], s[i]) <==> FitsPosition(i, s[i])
      {
        SessionIdClassAt(i);
        ClassForMatches(i, s[i]);
      }
    }
  }

  /** A valid id has nothing `trim` would remove. */
  lemma UuidV7IsTrimmed(s: string)
    requires IsUuidV7(s)
    ensures Trim(s) == s
  {
    assert FitsPosition(0, s[0]) && FitsPosition(35, s[35]);
    TrimNoop(s);
  }

  /** Lower-casing keeps a valid id valid. */
  lemma UuidV7LowerStable(s: string)
    requires IsUuidV7(s)
    ensures IsUuidV7(Lower(s))
  {
    assert forall i | 0 <= i < 36 :: FitsPosition(i, s[i]) && Lower(s)[i] == LowerChar(s[i]);
  }
}
