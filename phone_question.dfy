/** The phone widget's input sanitiser: `replace(/[^0-9+\-() ]/g, '')`. */
module PhoneQuestion {
  import opened Text

  predicate IsPhoneChar(c: char) {
    IsDigit(c) || c == '+' || c == '-' || c == '(' || c == ')' || c == ' '
  }

  predicate AllPhoneChars(s: string) {
    forall i :: 0 <= i < |s| ==> IsPhoneChar(s[i])
  }

  /** The input with every character outside the allowed set removed, the rest in order. */
  function Sanitize(s: string): (r: string)
    ensures AllPhoneChars(r) && |r| <= |s|
  {
    if s == [] then []
    else if IsPhoneChar(s[0]) then [s[0]] + Sanitize(s[1..])
    else Sanitize(s[1..])
  }

  /** Sanitising works character by character, so the kept characters stay in input order. */
  lemma {:induction false} SanitizeAppend(a: string, b: string)
    ensures Sanitize(a + b) == Sanitize(a) + Sanitize(b)
  {
    if a == [] {
      assert a + b == b;
    } else {
      assert (a + b)[0] == a[0];
      assert (a + b)[1..] == a[1..] + b;
      SanitizeAppend(a[1..], b);
      if IsPhoneChar(a[0]) {
        assert [a[0]] + (Sanitize(a[1..]) + Sanitize(b)) == ([a[0]] + Sanitize(a[1..])) + Sanitize(b);
      }
    }
  }

  /** A single character is kept exactly when it is allowed. */
  lemma SanitizeChar(c: char)
    ensures Sanitize([c]) == if IsPhoneChar(c) then [c] else []
  {
  }

  /** Each allowed character keeps its number of occurrences; every other one is gone. */
  lemma {:induction false} SanitizeCounts(s: string, c: char)
    ensures multiset(Sanitize(s))[c] == if IsPhoneChar(c) then multiset(s)[c] else 0
  {
    if s != [] {
      SanitizeCounts(s[1..], c);
      assert s == [s[0]] + s[1..];
    }
  }

  /** Input made only of allowed characters passes unchanged. */
  lemma {:induction false} SanitizeKeepsClean(s: string)
    requires AllPhoneChars(s)
    ensures Sanitize(s) == s
  {
    if s != [] {
      SanitizeKeepsClean(s[1..]);
    }
  }

  /** Sanitising twice is sanitising once. */
  lemma SanitizeIdempotent(s: string)
    ensures Sanitize(Sanitize(s)) == Sanitize(s)
  {
    SanitizeKeepsClean(Sanitize(s));
  }
}
