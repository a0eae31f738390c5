/** The Python string operations the modelled files call: `str.lstrip`, `str.find`, `in` and `<=`. */
module Text {

  /** `str.isspace` for one character; `str.lstrip` and the regular expression class `\s` use the same set. */
  predicate IsSpace(c: char) {
    var u := c as int;
    || 0x09 <= u <= 0x0D
    || 0x1C <= u <= 0x20
    || u == 0x85 || u == 0xA0 || u == 0x1680
    || 0x2000 <= u <= 0x200A
    || u == 0x2028 || u == 0x2029 || u == 0x202F || u == 0x205F || u == 0x3000
  }

  /** The whitespace characters of Unicode, one by one. */
  lemma SpacesListed(c: char)
    ensures IsSpace(c) <==>
            c in {' ', '\t', '\n', '\r', '\U{000B}', '\U{000C}', '\U{001C}', '\U{001D}', '\U{001E}', '\U{001F}',
                  '\U{0085}', '\U{00A0}', '\U{1680}', '\U{2000}', '\U{2001}', '\U{2002}', '\U{2003}', '\U{2004}',
                  '\U{2005}', '\U{2006}', '\U{2007}', '\U{2008}', '\U{2009}', '\U{200A}', '\U{2028}', '\U{2029}',
                  '\U{202F}', '\U{205F}', '\U{3000}'}
  {
  }

  predicate AllSpace(s: string) {
    forall i | 0 <= i < |s| :: IsSpace(s[i])
  }

  predicate StartsWithSpace(s: string) {
    s != "" && IsSpace(s[0])
  }

  function LeadingSpaces(s: string): (n: nat)
    ensures n <= |s| && AllSpace(s[..n])
    ensures n < |s| ==> !IsSpace(s[n])
  {
    if s == "" || !IsSpace(s[0]) then 0
    else
      var n := LeadingSpaces(s[1..]) + 1;
      assert forall i | 0 < i < n :: s[..n][i] == s[1..][..n - 1][i - 1];
      n
  }

  function LStrip(s: string): string {
    s[LeadingSpaces(s)..]
  }

  /** A string is its leading whitespace followed by its stripped form in only one way. */
  lemma {:induction false} LStripUnique(space: string, body: string)
    requires AllSpace(space) && !StartsWithSpace(body)
    ensures LStrip(space + body) == body
    ensures LeadingSpaces(space + body) == |space|
  {
    if space != "" {
      assert (space + body)[1..] == space[1..] + body;
      LStripUnique(space[1..], body);
    } else {
      assert space + body == body;
    }
  }

  /** Any whitespace before a text is stripped with the whitespace it starts with. */
  lemma LStripBehindSpace(space: string, x: string)
    requires AllSpace(space)
    ensures LStrip(space + x) == LStrip(x)
  {
    var m := LeadingSpaces(x);
    var all := space + x[..m];
    assert space + x == all + x[m..];
    assert forall i | 0 <= i < |all| :: all[i] == if i < |space| then space[i] else x[..m][i - |space|];
    LStripUnique(all, x[m..]);
  }

  /** Stripping commutes with appending, once something other than whitespace has been seen. */
  lemma LStripAppend(s: string, x: string)
    ensures LStrip(s + x) == if LStrip(s) == "" then LStrip(x) else LStrip(s) + x
  {
    var n := LeadingSpaces(s);
    if n == |s| {
      assert s[..n] == s;
      LStripBehindSpace(s, x);
    } else {
      assert s + x == s[..n] + (s[n..] + x);
      LStripUnique(s[..n], s[n..] + x);
    }
  }

  predicate OccursAt(text: string, pattern: string, i: nat) {
    i + |pattern| <= |text| && text[i..i + |pattern|] == pattern
  }

  /** The operator `pattern in text`. */
  predicate Contains(text: string, pattern: string) {
    exists i | 0 <= i <= |text| :: OccursAt(text, pattern, i)
  }

  ghost predicate IsFirstOccurrence(text: string, pattern: string, i: nat) {
    OccursAt(text, pattern, i) && forall j: nat | OccursAt(text, pattern, j) :: i <= j
  }

  lemma FirstOccurrenceExists(text: string, pattern: string, i: nat)
    requires OccursAt(text, pattern, i)
    ensures exists k: nat :: IsFirstOccurrence(text, pattern, k)
  {
    if j: nat :| j < i && OccursAt(text, pattern, j) {
      FirstOccurrenceExists(text, pattern, j);
    } else {
      assert IsFirstOccurrence(text, pattern, i);
    }
  }

  lemma FirstOccurrenceIfAny(text: string, pattern: string)
    requires Contains(text, pattern)
    ensures exists k: nat :: IsFirstOccurrence(text, pattern, k)
  {
    var i: nat :| OccursAt(text, pattern, i);
    FirstOccurrenceExists(text, pattern, i);
  }

  /** `str.find` as a value: the index of the first occurrence, or -1. `FindIsFirst` says what it is. */
  ghost function Find(text: string, pattern: string): (i: int)
    ensures i == -1 || 0 <= i <= |text| - |pattern|
  {
    if Contains(text, pattern) then
      FirstOccurrenceIfAny(text, pattern);
      var k: nat :| IsFirstOccurrence(text, pattern, k);
      k
    else -1
  }

  lemma FindIsFirst(text: string, pattern: string)
    ensures var i := Find(text, pattern);
      (i >= 0 ==> OccursAt(text, pattern, i))
      && forall j: nat | OccursAt(text, pattern, j) :: 0 <= i <= j
  {
    forall j: nat | OccursAt(text, pattern, j) ensures Contains(text, pattern) {}
    if Contains(text, pattern) {
      FirstOccurrenceIfAny(text, pattern);
    }
  }

  /** `str.find` as a computation. */
  method FindIndex(text: string, pattern: string) returns (i: int)
    ensures i == Find(text, pattern)
  {
    FindIsFirst(text, pattern);
    i := 0;
    while i <= |text|
      invariant 0 <= i <= |text| + 1
      invariant forall j: nat | j < i :: !OccursAt(text, pattern, j)
    {
      if OccursAt(text, pattern, i) {
        return;
      }
      i := i + 1;
    }
    i := -1;
  }

  // ---------- Python's order on strings ----------

  predicate LexLeq(a: string, b: string) {
    a == "" || (b != "" && (a[0] < b[0] || (a[0] == b[0] && LexLeq(a[1..], b[1..]))))
  }

  lemma {:induction false} LexLeqTotal(a: string, b: string)
    ensures LexLeq(a, b) || LexLeq(b, a)
  {
    if a != "" && b != "" {
      LexLeqTotal(a[1..], b[1..]);
    }
  }

  lemma {:induction false} LexLeqTransitive(a: string, b: string, c: string)
    requires LexLeq(a, b) && LexLeq(b, c)
    ensures LexLeq(a, c)
  {
    if a != "" && a[0] == b[0] == c[0] {
      LexLeqTransitive(a[1..], b[1..], c[1..]);
    }
  }

  /** The first characters decide, unless they are the same. */
  lemma {:induction false} LexLeqConcat(a: string, b: string, x: string, y: string)
    requires |a| == |b|
    ensures LexLeq(a + x, b + y) <==> if a == b then LexLeq(x, y) else LexLeq(a, b)
  {
    if a == "" {
      assert a + x == x && b + y == y;
    } else {
      assert (a + x)[1..] == a[1..] + x && (b + y)[1..] == b[1..] + y;
      LexLeqConcat(a[1..], b[1..], x, y);
      assert a == [a[0]] + a[1..] && b == [b[0]] + b[1..];
    }
  }
}
