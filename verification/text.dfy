/** The string operations the play classifiers rely on: stripping
    whitespace, ASCII case mapping and substring search. */
module Text {

  /** The characters Python's `str.isspace` accepts. */
  predicate IsSpace(c: char) {
    c in {' ', '\t', '\n', '\r', '\U{000B}', '\U{000C}',
          '\U{001C}', '\U{001D}', '\U{001E}', '\U{001F}', '\U{0085}', '\U{00A0}',
          '\U{1680}', '\U{2000}', '\U{2001}', '\U{2002}', '\U{2003}', '\U{2004}',
          '\U{2005}', '\U{2006}', '\U{2007}', '\U{2008}', '\U{2009}', '\U{200A}',
          '\U{2028}', '\U{2029}', '\U{202F}', '\U{205F}', '\U{3000}'}
  }

  predicate AllSpace(s: string) {
    forall k :: 0 <= k < |s| ==> IsSpace(s[k])
  }

  /** `s.lstrip()`: the suffix left after dropping the leading whitespace. */
  function StripStart(s: string): (r: string)
    ensures |r| <= |s| && r == s[|s| - |r|..]
    ensures AllSpace(s[..|s| - |r|])
    ensures r == [] || !IsSpace(r[0])
  {
    if |s| > 0 && IsSpace(s[0]) then
      var r := StripStart(s[1..]);
      DropFirstSpace(s, r);
      r
    else s
  }

  /** `s.rstrip()`: the prefix left after dropping the trailing whitespace. */
  function StripEnd(s: string): (r: string)
    ensures |r| <= |s| && r == s[..|r|]
    ensures AllSpace(s[|r|..])
    ensures r == [] || !IsSpace(r[|r| - 1])
  {
    if |s| > 0 && IsSpace(s[|s| - 1]) then
      var r := StripEnd(s[..|s| - 1]);
      DropLastSpace(s, r);
      r
    else s
  }

  /** Stripping a leading space and then a suffix of spaces from the rest
      strips them from the whole. */
  lemma DropFirstSpace(s: string, r: string)
    requires |s| > 0 && IsSpace(s[0])
    requires |r| <= |s| - 1 && r == s[1..][|s| - 1 - |r|..]
    requires AllSpace(s[1..][..|s| - 1 - |r|])
    ensures r == s[|s| - |r|..]
    ensures AllSpace(s[..|s| - |r|])
  {
    assert s[..|s| - |r|] == [s[0]] + s[1..][..|s| - 1 - |r|];
  }

  lemma DropLastSpace(s: string, r: string)
    requires |s| > 0 && IsSpace(s[|s| - 1])
    requires |r| <= |s| - 1 && r == s[..|s| - 1][..|r|]
    requires AllSpace(s[..|s| - 1][|r|..])
    ensures r == s[..|r|]
    ensures AllSpace(s[|r|..])
  {
    assert s[|r|..] == s[..|s| - 1][|r|..] + [s[|s| - 1]];
  }

  /** `s.strip()` */
  function Strip(s: string): string {
    StripEnd(StripStart(s))
  }

  function LowerChar(c: char): (d: char)
    ensures IsSpace(d) == IsSpace(c)
    ensures !('A' <= d <= 'Z')
    ensures !('A' <= c <= 'Z') ==> d == c
    ensures 'A' <= c <= 'Z' ==> 'a' <= d <= 'z' && UpperChar(d) == c
  {
    if 'A' <= c <= 'Z' then (c as int + 32) as char else c
  }

  function UpperChar(c: char): (d: char)
    ensures !('a' <= d <= 'z')
    ensures !('a' <= c <= 'z') ==> d == c
    ensures 'a' <= c <= 'z' ==> 'A' <= d <= 'Z' && d as int == c as int - 32
  {
    if 'a' <= c <= 'z' then (c as int - 32) as char else c
  }

  /** `s.lower()` on ASCII letters. */
  function Lower(s: string): (r: string)
    ensures |r| == |s| && forall k :: 0 <= k < |s| ==> r[k] == LowerChar(s[k])
  {
    seq(|s|, k requires 0 <= k < |s| => LowerChar(s[k]))
  }

  /** `s.upper()` on ASCII letters. */
  function Upper(s: string): (r: string)
    ensures |r| == |s| && forall k :: 0 <= k < |s| ==> r[k] == UpperChar(s[k])
  {
    seq(|s|, k requires 0 <= k < |s| => UpperChar(s[k]))
  }

  lemma LowerIdempotent(s: string)
    ensures Lower(Lower(s)) == Lower(s)
  {
  }

  /** Leading whitespace makes no difference to lstrip. */
  lemma {:induction false} StripStartSkipsSpace(w: string, t: string)
    requires AllSpace(w)
    ensures StripStart(w + t) == StripStart(t)
    decreases |w|
  {
    if w != [] {
      assert (w + t)[1..] == w[1..] + t;
      StripStartSkipsSpace(w[1..], t);
    } else {
      assert w + t == t;
    }
  }

  /** Once lstrip has reached a non-space character, text after it is kept. */
  lemma {:induction false} StripStartAppend(s: string, t: string)
    requires StripStart(s) != []
    ensures StripStart(s + t) == StripStart(s) + t
    decreases |s|
  {
    if IsSpace(s[0]) {
      assert (s + t)[1..] == s[1..] + t;
      StripStartAppend(s[1..], t);
    }
  }

  /** Trailing whitespace makes no difference to rstrip. */
  lemma {:induction false} StripEndSkipsSpace(t: string, w: string)
    requires AllSpace(w)
    ensures StripEnd(t + w) == StripEnd(t)
    decreases |w|
  {
    if w != [] {
      assert (t + w)[..|t + w| - 1] == t + w[..|w| - 1];
      StripEndSkipsSpace(t, w[..|w| - 1]);
    } else {
      assert t + w == t;
    }
  }

  /** Padding with whitespace on either side does not change the stripped
      text. */
  lemma {:induction false} StripIgnoresPadding(w1: string, s: string, w2: string)
    requires AllSpace(w1) && AllSpace(w2)
    ensures Strip(w1 + s + w2) == Strip(s)
  {
    assert w1 + s + w2 == w1 + (s + w2);
    StripStartSkipsSpace(w1, s + w2);
    if StripStart(s) != [] {
      StripStartAppend(s, w2);
      StripEndSkipsSpace(StripStart(s), w2);
    } else {
      assert AllSpace(s);
      assert AllSpace(s + w2);
      StripStartSkipsSpace(s + w2, []);
      assert s + w2 + [] == s + w2;
    }
  }

  /** Lower-casing and stripping commute, because case mapping never turns a
      space into a non-space or back. */
  lemma {:induction false} StripStartLower(s: string)
    ensures StripStart(Lower(s)) == Lower(StripStart(s))
    decreases |s|
  {
    if |s| > 0 && IsSpace(s[0]) {
      assert Lower(s)[1..] == Lower(s[1..]);
      StripStartLower(s[1..]);
    }
  }

  lemma {:induction false} StripEndLower(s: string)
    ensures StripEnd(Lower(s)) == Lower(StripEnd(s))
    decreases |s|
  {
    if |s| > 0 && IsSpace(s[|s| - 1]) {
      assert Lower(s)[..|s| - 1] == Lower(s[..|s| - 1]);
      StripEndLower(s[..|s| - 1]);
    }
  }

  lemma StripLower(s: string)
    ensures Strip(Lower(s)) == Lower(Strip(s))
  {
    StripStartLower(s);
    StripEndLower(StripStart(s));
  }

  predicate OccursAt(s: string, sub: string, i: int) {
    0 <= i && i + |sub| <= |s| && s[i..i + |sub|] == sub
  }

  /** `sub in s` */
  function Contains(s: string, sub: string): (b: bool)
    ensures b <==> exists i :: OccursAt(s, sub, i)
    decreases |s|
  {
    if |sub| > |s| then false
    else if s[..|sub|] == sub then
      assert OccursAt(s, sub, 0);
      true
    else
      var rest := Contains(s[1..], sub);
      assert forall i :: OccursAt(s[1..], sub, i) ==> OccursAt(s, sub, i + 1);
      assert forall i :: OccursAt(s, sub, i) ==> i == 0 || OccursAt(s[1..], sub, i - 1);
      rest
  }
}
