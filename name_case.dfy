/**
 * The field-name transform of `create_field_items`: the pattern
 * `(?:^|_)(.)` is searched leftmost-first and only the FIRST match is
 * rewritten (`Regex::replace`, not `replace_all`), with capture group 1
 * upper-cased. For every ordinary identifier that first match is the `^`
 * alternative at position 0, so the transform upper-cases the first
 * character and keeps the rest: `is_unique` becomes `Is_unique`.
 */
module NameCase {
  import opened Wrappers

  /** A match of `(?:^|_)(.)` in a string: the span [start, end) and capture group 1. */
  datatype Match = Match(start: nat, end: nat, capture: char)

  /** What `.` matches without the `s` flag: any character except a line feed. */
  predicate IsDot(c: char) {
    c != '\n'
  }

  /** m is a match of the pattern in s, through the `^` alternative or the `_` alternative. */
  ghost predicate IsMatch(s: string, m: Match) {
    || (m.start == 0 && m.end == 1 && 0 < |s| && IsDot(s[0]) && m.capture == s[0])
    || (m.end == m.start + 2 && m.end <= |s| && s[m.start] == '_' && IsDot(s[m.start + 1])
        && m.capture == s[m.start + 1])
  }

  /** The match the engine finds when it starts at position p: `^` is tried before `_`. */
  function MatchAt(s: string, p: nat): (r: Option<Match>)
    ensures r.Some? ==> IsMatch(s, r.value) && r.value.start == p
  {
    if p == 0 && 0 < |s| && IsDot(s[0]) then Some(Match(0, 1, s[0]))
    else if p + 1 < |s| && s[p] == '_' && IsDot(s[p + 1]) then Some(Match(p, p + 2, s[p + 1]))
    else None
  }

  /** Every match starting at p is found by MatchAt, which picks the preferred (shorter) one. */
  lemma MatchAtComplete(s: string, m: Match)
    requires IsMatch(s, m)
    ensures MatchAt(s, m.start).Some? && MatchAt(s, m.start).value.end <= m.end
  {
  }

  /** Scans positions p, p + 1, ... and returns the first match; None if there is none. */
  function FindFrom(s: string, p: nat): (r: Option<Match>)
    requires p <= |s|
    decreases |s| - p
    ensures r.Some? ==> p <= r.value.start && MatchAt(s, r.value.start) == r
    ensures forall q :: p <= q && (r.None? || q < r.value.start) ==> MatchAt(s, q).None?
  {
    if p == |s| then None
    else if MatchAt(s, p).Some? then MatchAt(s, p)
    else FindFrom(s, p + 1)
  }

  /** The leftmost-first match of `(?:^|_)(.)` in s, as `Regex::replace` locates it. */
  function FindMatch(s: string): (r: Option<Match>)
    ensures r.Some? ==> IsMatch(s, r.value)
    ensures r.Some? ==> forall m :: IsMatch(s, m) ==>
      r.value.start <= m.start && (r.value.start == m.start ==> r.value.end <= m.end)
    ensures r.None? <==> forall m :: !IsMatch(s, m)
  {
    var r := FindFrom(s, 0);
    forall m | IsMatch(s, m)
      ensures r.Some? && r.value.start <= m.start && (r.value.start == m.start ==> r.value.end <= m.end)
    {
      MatchAtComplete(s, m);
    }
    r
  }

  /** ASCII upper-casing of one character (`to_uppercase` restricted to ASCII). */
  function Upper(c: char): char {
    if 'a' <= c <= 'z' then (c as int - 32) as char else c
  }

  /** `Regex::replace` with the closure of line 30: the first match becomes its upper-cased capture. */
  function ReplaceFirst(s: string): string {
    match FindMatch(s)
    case None => s
    case Some(m) => s[..m.start] + [Upper(m.capture)] + s[m.end..]
  }

  /** The name of the generated constant for a field: the transform applied to a field's name. */
  function ConstName(fieldName: string): string {
    ReplaceFirst(fieldName)
  }

  /** The name of the generated marker struct for a field: `_` and the constant's name. */
  function MarkerName(fieldName: string): string {
    "_" + ConstName(fieldName)
  }

  /** A character of an ASCII identifier. */
  predicate IsIdentChar(c: char) {
    ('a' <= c <= 'z') || ('A' <= c <= 'Z') || ('0' <= c <= '9') || c == '_'
  }

  /** A non-empty ASCII identifier, as field names are. */
  predicate IsIdent(s: string) {
    0 < |s| && forall i :: 0 <= i < |s| ==> IsIdentChar(s[i])
  }

  /** For a non-empty string not starting with a line feed, the leftmost-first match covers exactly its first character. */
  lemma FirstMatchIsStart(s: string)
    requires 0 < |s| && IsDot(s[0])
    ensures FindMatch(s) == Some(Match(0, 1, s[0]))
  {
  }

  /** The transform upper-cases the first character and leaves every other character alone. */
  lemma ConstNameCapitalizesFirst(s: string)
    requires 0 < |s| && IsDot(s[0])
    ensures ConstName(s) == [Upper(s[0])] + s[1..]
  {
    FirstMatchIsStart(s);
  }

  /** The empty name has no match and is returned unchanged. */
  lemma ConstNameEmpty()
    ensures ConstName("") == ""
  {
    assert FindMatch("").None? by {
      assert FindFrom("", 0) == None;
    }
  }

  /** The transform preserves length and applying it twice is the same as applying it once. */
  lemma ConstNameLengthAndIdempotent(s: string)
    requires s == [] || IsIdentChar(s[0])
    ensures |ConstName(s)| == |s|
    ensures ConstName(ConstName(s)) == ConstName(s)
  {
    if s == [] {
      ConstNameEmpty();
    } else {
      ConstNameCapitalizesFirst(s);
      var t := ConstName(s);
      assert t[0] == Upper(s[0]) && t[1..] == s[1..];
      ConstNameCapitalizesFirst(t);
    }
  }

  /** An ASCII identifier is mapped to an ASCII identifier of the same length. */
  lemma ConstNameIdent(s: string)
    requires IsIdent(s)
    ensures IsIdent(ConstName(s)) && |ConstName(s)| == |s|
    ensures ConstName(ConstName(s)) == ConstName(s)
    ensures forall i :: 0 < i < |s| ==> ConstName(s)[i] == s[i]
  {
    assert IsIdentChar(s[0]);
    ConstNameCapitalizesFirst(s);
    ConstNameLengthAndIdempotent(s);
    var t := ConstName(s);
    forall i | 0 <= i < |t| ensures IsIdentChar(t[i]) {
      if i > 0 { assert t[i] == s[i]; }
    }
  }

  /**
   * Two identifiers get the same constant (and the same marker) exactly when
   * they differ at most in the case of their first letter; the macro does
   * not check for such collisions.
   */
  lemma ConstNameCollision(a: string, b: string)
    requires IsIdent(a) && IsIdent(b)
    ensures ConstName(a) == ConstName(b) <==> Upper(a[0]) == Upper(b[0]) && a[1..] == b[1..]
    ensures MarkerName(a) == MarkerName(b) <==> ConstName(a) == ConstName(b)
  {
    assert IsIdentChar(a[0]) && IsIdentChar(b[0]);
    ConstNameCapitalizesFirst(a);
    ConstNameCapitalizesFirst(b);
    if ConstName(a) == ConstName(b) {
      assert ConstName(a)[0] == ConstName(b)[0];
      assert ConstName(a)[1..] == ConstName(b)[1..];
    }
    if MarkerName(a) == MarkerName(b) {
      assert MarkerName(a)[1..] == MarkerName(b)[1..];
    }
  }

  /**
   * A marker name equals another identifier's constant name exactly when that
   * identifier is `_` followed by the first one's constant name: `_foo` and
   * `__foo` both give `__foo`.
   */
  lemma MarkerConstCollision(a: string, b: string)
    requires IsIdent(a) && IsIdent(b)
    ensures MarkerName(a) == ConstName(b) <==> b[0] == '_' && b[1..] == ConstName(a)
    ensures MarkerName("_foo") == ConstName("__foo") == "__foo"
  {
    assert IsIdentChar(b[0]);
    ConstNameCapitalizesFirst(b);
    ConstNameCapitalizesFirst("_foo");
    ConstNameCapitalizesFirst("__foo");
    if MarkerName(a) == ConstName(b) {
      assert MarkerName(a)[0] == ConstName(b)[0];
      assert MarkerName(a)[1..] == ConstName(b)[1..];
    }
  }

  /** The marker name is `_` followed by the constant name, so it never equals that constant name. */
  lemma MarkerNameShape(s: string)
    ensures |MarkerName(s)| == |ConstName(s)| + 1
    ensures MarkerName(s)[0] == '_' && MarkerName(s)[1..] == ConstName(s)
    ensures MarkerName(s) != ConstName(s)
  {
  }

  /** Only one match is rewritten: the underscore-separated word keeps its lower-case initial. */
  lemma IsUniqueExample()
    ensures ConstName("is_unique") == "Is_unique"
    ensures MarkerName("is_unique") == "_Is_unique"
    ensures ConstName("is_unique") != "IsUnique"
  {
    ConstNameCapitalizesFirst("is_unique");
  }

  /** A leading underscore is the capture of the `^` alternative and upper-cases to itself. */
  lemma LeadingUnderscoreExample()
    ensures ConstName("_foo") == "_foo"
  {
    ConstNameCapitalizesFirst("_foo");
  }

  /** The names the fixtures rely on: `field` and `name`. */
  lemma FixtureNames()
    ensures ConstName("field") == "Field" && MarkerName("field") == "_Field"
    ensures ConstName("name") == "Name" && MarkerName("name") == "_Name"
  {
    ConstNameCapitalizesFirst("field");
    ConstNameCapitalizesFirst("name");
  }

  /** When the `^` alternative fails (a leading line feed), the `_` alternative rewrites the first `_x`. */
  lemma UnderscoreAlternativeExample()
    ensures ConstName("\n_a_b") == "\nA_b"
  {
    var s := "\n_a_b";
    assert MatchAt(s, 0).None?;
    assert MatchAt(s, 1) == Some(Match(1, 3, 'a'));
    assert FindFrom(s, 0) == FindFrom(s, 1);
  }
}
