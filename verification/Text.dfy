/** The string operations of Go's standard library that the repository relies on.
    A Go string is modelled as a sequence of characters. */
module Text {

  // ----- Trimming -----

  /** The characters for which Go's unicode.IsSpace holds. */
  predicate IsSpace(c: char) {
    || c == ' ' || '\U{0009}' <= c <= '\U{000D}' || c == '\U{0085}' || c == '\U{00A0}'
    || c == '\U{1680}' || '\U{2000}' <= c <= '\U{200A}' || c == '\U{2028}' || c == '\U{2029}'
    || c == '\U{202F}' || c == '\U{205F}' || c == '\U{3000}'
  }

  predicate Trimmed(s: string) {
    s != "" ==> !IsSpace(s[0]) && !IsSpace(s[|s| - 1])
  }

  predicate Blank(s: string) {
    forall i :: 0 <= i < |s| ==> IsSpace(s[i])
  }

  function TrimLeft(s: string): (t: string)
    ensures t != "" ==> !IsSpace(t[0])
    ensures t == "" <==> Blank(s)
    ensures forall c :: c in t ==> c in s
  {
    if s != "" && IsSpace(s[0]) then
      assert Blank(s) <==> Blank(s[1..]) by {
        assert forall i :: 1 <= i < |s| ==> s[i] == s[1..][i - 1];
        assert forall i :: 0 <= i < |s[1..]| ==> s[1..][i] == s[i + 1];
      }
      TrimLeft(s[1..])
    else s
  }

  function TrimRight(s: string): (t: string)
    ensures t != "" ==> !IsSpace(t[|t| - 1])
    ensures s != "" && !IsSpace(s[0]) ==> t != "" && t[0] == s[0]
    ensures forall c :: c in t ==> c in s
  {
    if s != "" && IsSpace(s[|s| - 1]) then TrimRight(s[..|s| - 1]) else s
  }

  /** strings.TrimSpace. */
  function Trim(s: string): (t: string)
    ensures Trimmed(t)
    ensures Trimmed(s) ==> t == s
    ensures t == "" <==> Blank(s)
    ensures forall c :: c in t ==> c in s
  {
    TrimRight(TrimLeft(s))
  }

  /** Trimming takes blank text off both ends and leaves all between them. */
  lemma TrimIsMiddle(s: string) returns (before: string, after: string)
    ensures s == before + Trim(s) + after && Blank(before) && Blank(after)
  {
    before := LeftOf(s);
    after := RightOf(TrimLeft(s));
    assert before + (TrimRight(TrimLeft(s)) + after) == before + Trim(s) + after;
  }

  lemma {:induction false} LeftOf(s: string) returns (before: string)
    ensures s == before + TrimLeft(s) && Blank(before)
  {
    before := "";
    if s != "" && IsSpace(s[0]) {
      var rest := LeftOf(s[1..]);
      before := [s[0]] + rest;
      assert s == [s[0]] + s[1..] == [s[0]] + (rest + TrimLeft(s)) == before + TrimLeft(s);
    }
  }

  lemma {:induction false} RightOf(s: string) returns (after: string)
    ensures s == TrimRight(s) + after && Blank(after)
  {
    after := "";
    if s != "" && IsSpace(s[|s| - 1]) {
      after := RightOf(s[..|s| - 1]);
      after := after + [s[|s| - 1]];
    }
  }

  /** No other text between blank ends is trimmed. */
  lemma MiddleIsTrim(before: string, t: string, after: string)
    requires Blank(before) && Blank(after) && Trimmed(t)
    ensures Trim(before + t + after) == t
  {
    var s := before + t + after;
    var before', after' := TrimIsMiddle(s);
    var t' := Trim(s);
    if t == "" {
      assert Blank(s);
    } else {
      assert s[|before|] == t[0] && s[|before| + |t| - 1] == t[|t| - 1];
      assert !IsSpace(s[|before|]) && !IsSpace(s[|before| + |t| - 1]);
      assert t' != "" && s[|before'|] == t'[0] && s[|before'| + |t'| - 1] == t'[|t'| - 1];
      assert |before'| == |before| && |after'| == |after|;
      assert t == s[|before|..|before| + |t|] && t' == s[|before|..|before| + |t|];
    }
  }

  // ----- Case -----

  function AsciiLower(c: char): char {
    if 'A' <= c <= 'Z' then (c as int + 32) as char else c
  }

  /** Lower-casing of one character: the ASCII letters and the two other characters
      whose lower case is an ASCII letter. */
  function LowerChar(c: char): char {
    if c == '\U{0130}' then 'i' else if c == '\U{212A}' then 'k' else AsciiLower(c)
  }

  function ToLower(s: string): (t: string)
    ensures |t| == |s|
    ensures forall i :: 0 <= i < |s| ==> t[i] == LowerChar(s[i])
  {
    seq(|s|, i requires 0 <= i < |s| => LowerChar(s[i]))
  }

  /** One representative of a character's case-folding class: the ASCII letters
      and the two other characters that fold to an ASCII letter. */
  function FoldChar(c: char): char {
    if c == '\U{017F}' then 's' else if c == '\U{212A}' then 'k' else AsciiLower(c)
  }

  /** strings.EqualFold. */
  predicate EqualFold(a: string, b: string) {
    |a| == |b| && forall i :: 0 <= i < |a| ==> FoldChar(a[i]) == FoldChar(b[i])
  }

  /** On ASCII text, lower-casing changes the letters from A to Z, and nothing else. */
  lemma LowerOnAscii(s: string, i: nat)
    requires i < |s| && s[i] < '\U{0080}'
    ensures ToLower(s)[i] == if 'A' <= s[i] <= 'Z' then (s[i] as int + 32) as char else s[i]
  {
  }

  /** On ASCII text, folding makes exactly the two cases of a letter equal. */
  lemma FoldOnAscii(a: char, b: char)
    requires a < '\U{0080}' && b < '\U{0080}'
    ensures EqualFold([a], [b]) <==>
      a == b || ('A' <= a <= 'Z' && b as int == a as int + 32) || ('A' <= b <= 'Z' && a as int == b as int + 32)
  {
    assert EqualFold([a], [b]) <==> FoldChar([a][0]) == FoldChar([b][0]);
  }

  // ----- Order -----

  /** Go's `<` on strings. */
  predicate Less(a: string, b: string) {
    b != "" && (a == "" || a[0] < b[0] || (a[0] == b[0] && Less(a[1..], b[1..])))
  }

  /** `a` comes before `b` at position `k`: they are equal up to it, and there `a` ends or has the smaller character. */
  predicate ComesBeforeAt(a: string, b: string, k: nat) {
    && k <= |a| && k < |b| && (forall i :: 0 <= i < k ==> a[i] == b[i])
    && (k == |a| || a[k] < b[k])
  }

  /** The order is the lexicographic one. */
  lemma {:induction false} LessIsLexicographic(a: string, b: string)
    ensures Less(a, b) <==> exists k: nat :: ComesBeforeAt(a, b, k)
  {
    if a == "" || b == "" || a[0] != b[0] {
      assert Less(a, b) ==> ComesBeforeAt(a, b, 0);
    } else {
      LessIsLexicographic(a[1..], b[1..]);
      if k: nat :| ComesBeforeAt(a[1..], b[1..], k) {
        assert forall i :: 1 <= i < k + 1 ==> a[i] == a[1..][i - 1] && b[i] == b[1..][i - 1];
        assert ComesBeforeAt(a, b, k + 1);
      }
      forall k: nat | ComesBeforeAt(a, b, k) ensures k > 0 && ComesBeforeAt(a[1..], b[1..], k - 1) {
      }
    }
  }

  lemma LessIsStrict(a: string)
    ensures !Less(a, a)
  {
  }

  lemma LessIsTransitive(a: string, b: string, c: string)
    requires Less(a, b) && Less(b, c)
    ensures Less(a, c)
  {
  }

  lemma LessIsTotal(a: string, b: string)
    ensures Less(a, b) || a == b || Less(b, a)
  {
    if a != "" && b != "" && a[0] == b[0] {
      LessIsTotal(a[1..], b[1..]);
      assert a == [a[0]] + a[1..] && b == [b[0]] + b[1..];
    }
  }

  // ----- Decimal numbers -----

  function Digit(n: nat): char
    requires n < 10
  {
    (n + '0' as int) as char
  }

  /** The decimal text of a number, as fmt prints it. */
  function Decimal(n: nat): (s: string)
    ensures s != ""
    ensures forall c :: c in s ==> '0' <= c <= '9'
    ensures n > 0 ==> s[0] != '0'
    ensures n == 0 ==> |s| == 1
  {
    if n < 10 then [Digit(n)] else Decimal(n / 10) + [Digit(n % 10)]
  }

  function DecimalValue(s: string): int {
    if s == "" then 0 else 10 * DecimalValue(s[..|s| - 1]) + (s[|s| - 1] as int - '0' as int)
  }

  lemma {:induction false} DecimalRoundTrip(n: nat)
    ensures DecimalValue(Decimal(n)) == n
  {
    if n >= 10 {
      DecimalRoundTrip(n / 10);
      assert Decimal(n)[..|Decimal(n)| - 1] == Decimal(n / 10);
    } else {
      assert Decimal(n)[..0] == "";
    }
  }

  // ----- Separators -----

  /** When the separator does not occur in the heads, joining head and tail with it
      loses nothing. */
  lemma JoinIsInjective(a: string, b: string, sep: char, a': string, b': string)
    requires sep !in a && sep !in a'
    requires a + [sep] + b == a' + [sep] + b'
    ensures a == a' && b == b'
  {
    var s := a + [sep] + b;
    assert s[|a|] == sep && s[|a'|] == sep;
    assert |a| == |a'| by {
      assert a == s[..|a|] && a' == s[..|a'|];
    }
    assert s[..|a|] == a && s[..|a'|] == a';
    assert s[|a| + 1..] == b && s[|a'| + 1..] == b';
  }
}
