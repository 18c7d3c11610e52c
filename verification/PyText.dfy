/** Python string operations used across the services, on ASCII text. */
module PyText {

  datatype Option<+T> = None | Some(value: T)

  predicate IsSpace(c: char) {
    c == ' ' || c == '\t' || c == '\n' || c == '\r' || c == '\U{0B}' || c == '\U{0C}'
    || '\U{1C}' <= c <= '\U{1F}'
  }

  predicate IsDigit(c: char) { '0' <= c <= '9' }

  predicate IsSlash(c: char) { c == '/' }

  /** How many leading characters satisfy `drop`, counted from position `i`. */
  function Leading(s: string, drop: char -> bool, i: nat): (n: nat)
    requires i <= |s|
    ensures i <= n <= |s| && (n < |s| ==> !drop(s[n]))
    decreases |s| - i
  {
    if i < |s| && drop(s[i]) then Leading(s, drop, i + 1) else i
  }

  /** The end of `s[..n]` without the trailing characters that satisfy `drop`. */
  function Trailing(s: string, drop: char -> bool, n: nat): (r: nat)
    requires n <= |s|
    ensures r <= n && (r > 0 ==> !drop(s[r - 1]))
  {
    if n > 0 && drop(s[n - 1]) then Trailing(s, drop, n - 1) else n
  }

  /** `s.lstrip(...)`: drops the leading characters that satisfy `drop`. */
  function TrimLeft(s: string, drop: char -> bool): (r: string)
    ensures |r| <= |s| && r == s[|s| - |r|..]
    ensures r != [] ==> !drop(r[0])
  {
    s[Leading(s, drop, 0)..]
  }

  /** `s.rstrip(...)`: drops the trailing characters that satisfy `drop`. */
  function TrimRight(s: string, drop: char -> bool): (r: string)
    ensures r <= s
    ensures r != [] ==> !drop(r[|r| - 1])
  {
    s[..Trailing(s, drop, |s|)]
  }

  /** `s.strip(...)`. */
  function Trim(s: string, drop: char -> bool): (r: string)
    ensures |r| <= |s|
    ensures r != [] ==> !drop(r[0]) && !drop(r[|r| - 1])
  {
    TrimRight(TrimLeft(s, drop), drop)
  }

  function Strip(s: string): (r: string) { Trim(s, IsSpace) }

  /** Text whose two end characters are kept is not changed by stripping. */
  lemma TrimKeeps(s: string, drop: char -> bool)
    requires s == [] || (!drop(s[0]) && !drop(s[|s| - 1]))
    ensures Trim(s, drop) == s
  {
  }

  lemma StripKeeps(s: string)
    requires s == [] || (!IsSpace(s[0]) && !IsSpace(s[|s| - 1]))
    ensures Strip(s) == s
  {
    TrimKeeps(s, IsSpace);
  }

  lemma TrimIdempotent(s: string, drop: char -> bool)
    ensures Trim(Trim(s, drop), drop) == Trim(s, drop)
  {
    TrimKeeps(Trim(s, drop), drop);
  }

  lemma StripTwice(s: string)
    ensures Strip(Strip(s)) == Strip(s)
  {
    TrimIdempotent(s, IsSpace);
  }

  lemma StripNothing()
    ensures Strip([]) == []
  {
  }

  /** Stripping takes the space from both ends and nothing else. */
  lemma StripIs(s: string) returns (before: string, after: string)
    ensures s == before + Strip(s) + after
    ensures forall i | 0 <= i < |before| :: IsSpace(before[i])
    ensures forall i | 0 <= i < |after| :: IsSpace(after[i])
    ensures Strip(s) != [] ==> !IsSpace(Strip(s)[0]) && !IsSpace(Strip(s)[|Strip(s)| - 1])
  {
    hide IsSpace;
    var left := TrimLeft(s, IsSpace);
    LeadingDropped(s, IsSpace, 0);
    TrailingDropped(left, IsSpace, |left|);
    before, after := s[..|s| - |left|], left[|Strip(s)|..];
  }

  lemma {:induction false} LeadingDropped(s: string, drop: char -> bool, i: nat)
    requires i <= |s|
    ensures i <= Leading(s, drop, i) <= |s| && forall j | i <= j < Leading(s, drop, i) :: drop(s[j])
    decreases |s| - i
  {
    if i == |s| || !drop(s[i]) {
    } else {
      LeadingDropped(s, drop, i + 1);
    }
  }

  lemma {:induction false} TrailingDropped(s: string, drop: char -> bool, n: nat)
    requires n <= |s|
    ensures forall j | Trailing(s, drop, n) <= j < n :: drop(s[j])
  {
    if n == 0 || !drop(s[n - 1]) {
    } else {
      TrailingDropped(s, drop, n - 1);
    }
  }

  /** Text with a dropped character at an end gets shorter. */
  lemma TrimShortens(s: string, drop: char -> bool)
    requires s != [] && (drop(s[0]) || drop(s[|s| - 1]))
    ensures |Trim(s, drop)| < |s|
  {
    hide TrimLeft, TrimRight;
    var left := TrimLeft(s, drop);
    var r := TrimRight(left, drop);
    assert r <= left && left == s[|s| - |left|..];
    assert |r| == |s| ==> left == s && r == s;
  }

  function LowerChar(c: char): char { if 'A' <= c <= 'Z' then (c as int + 32) as char else c }

  function UpperChar(c: char): char { if 'a' <= c <= 'z' then (c as int - 32) as char else c }

  function Lower(s: string): (r: string) { seq(|s|, i requires 0 <= i < |s| => LowerChar(s[i])) }

  function Upper(s: string): (r: string) { seq(|s|, i requires 0 <= i < |s| => UpperChar(s[i])) }

  lemma LowerIdempotent(s: string)
    ensures Lower(Lower(s)) == Lower(s)
  {
  }

  lemma LowerKeepsSpace(c: char)
    ensures IsSpace(LowerChar(c)) == IsSpace(c)
  {
  }

  /** `value.strip().lower()` is a normal form. */
  lemma StripLowerIdempotent(s: string)
    ensures Lower(Strip(Lower(Strip(s)))) == Lower(Strip(s))
  {
    var t := Strip(s);
    if t != [] {
      LowerKeepsSpace(t[0]);
      LowerKeepsSpace(t[|t| - 1]);
    }
    TrimKeeps(Lower(t), IsSpace);
    LowerIdempotent(t);
  }

  // ---- words ------------------------------------------------------------------------------------

  predicate SameLetter(a: char, b: char) {
    || a == b || ('A' <= a <= 'Z' && a as int + 32 == b as int) || ('A' <= b <= 'Z' && b as int + 32 == a as int)
  }

  /** `text` is the word, in any case and with any space around it. */
  predicate Spells(text: string, word: string) {
    var t := Strip(text);
    |t| == |word| && forall i | 0 <= i < |t| :: SameLetter(t[i], word[i])
  }

  lemma LowerSpells(text: string, word: string)
    requires forall i | 0 <= i < |word| :: !('A' <= word[i] <= 'Z')
    ensures Lower(Strip(text)) == word <==> Spells(text, word)
  {
    hide Strip;
    var t := Strip(text);
    assert |Lower(t)| == |t|;
    if Lower(t) == word {
      forall i | 0 <= i < |t|
        ensures SameLetter(t[i], word[i])
      {
        assert Lower(t)[i] == word[i];
      }
    }
    if Spells(text, word) {
      assert forall i | 0 <= i < |t| :: Lower(t)[i] == word[i];
    }
  }

  lemma UpperSpells(text: string, word: string)
    requires forall i | 0 <= i < |word| :: !('a' <= word[i] <= 'z')
    ensures Upper(Strip(text)) == word <==> Spells(text, word)
  {
    hide Strip;
    var t := Strip(text);
    assert |Upper(t)| == |t|;
    if Upper(t) == word {
      forall i | 0 <= i < |t|
        ensures SameLetter(t[i], word[i])
      {
        assert Upper(t)[i] == word[i];
      }
    }
    if Spells(text, word) {
      assert forall i | 0 <= i < |t| :: Upper(t)[i] == word[i];
    }
  }

  /** `s.isdigit()`. */
  predicate IsDigits(s: string) { s != [] && forall i | 0 <= i < |s| :: IsDigit(s[i]) }

  function DigitChar(d: nat): char
    requires d < 10
  {
    ('0' as int + d) as char
  }

  /** `int(s)` on a run of digits. */
  function ParseNat(s: string): nat
    requires forall i | 0 <= i < |s| :: IsDigit(s[i])
  {
    if s == [] then 0
    else
      assert IsDigit(s[|s| - 1]);
      ParseNat(s[..|s| - 1]) * 10 + (s[|s| - 1] as int - '0' as int)
  }

  /** `str(n)`. */
  function Dec(n: nat): (s: string)
    ensures IsDigits(s)
  {
    if n < 10 then [DigitChar(n)] else Dec(n / 10) + [DigitChar(n % 10)]
  }

  lemma {:induction false} ParseDec(n: nat)
    ensures ParseNat(Dec(n)) == n
  {
    var s := Dec(n);
    if n >= 10 {
      ParseDec(n / 10);
      assert s[..|s| - 1] == Dec(n / 10);
    } else {
      assert s[..|s| - 1] == [];
    }
  }
}
