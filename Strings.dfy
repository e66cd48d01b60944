// Text helpers shared by the hotkey parser and the hotkey-string builder:
// ASCII upper-casing, splitting on one separator character (as Python's
// str.split(sep) does) and joining with a separator string (str.join).

module Strings {

  /** Upper-cases one ASCII letter; every other character is unchanged. */
  function UpperChar(c: char): char {
    if 'a' <= c <= 'z' then (c as int - 32) as char else c
  }

  /** Upper-cases a whole string, character by character. */
  function Upper(s: string): (u: string)
    ensures |u| == |s|
    ensures forall i :: 0 <= i < |s| ==> u[i] == UpperChar(s[i])
  {
    seq(|s|, i requires 0 <= i < |s| => UpperChar(s[i]))
  }

  lemma UpperIdempotent(s: string)
    ensures Upper(Upper(s)) == Upper(s)
  {
  }

  /** A string without lower-case ASCII letters is its own upper case. */
  lemma UpperFixed(s: string)
    requires forall i :: 0 <= i < |s| ==> !('a' <= s[i] <= 'z')
    ensures Upper(s) == s
  {
  }

  lemma UpperAppend(a: string, b: string)
    ensures Upper(a + b) == Upper(a) + Upper(b)
  {
  }

  /** Splits `s` at every occurrence of `sep`; like Python's split with an
      explicit separator, the result always has at least one part, and
      empty parts are kept (`"" -> [""]`, `"a+" -> ["a", ""]`). */
  function Split(s: string, sep: char): (parts: seq<string>)
    ensures |parts| >= 1
    ensures |parts| <= |s| + 1
  {
    if s == [] then [[]]
    else if s[0] == sep then [[]] + Split(s[1..], sep)
    else
      var rest := Split(s[1..], sep);
      [[s[0]] + rest[0]] + rest[1..]
  }

  /** Joins `parts` with `sep` between consecutive parts. */
  function Join(parts: seq<string>, sep: string): string {
    if parts == [] then []
    else if |parts| == 1 then parts[0]
    else parts[0] + sep + Join(parts[1..], sep)
  }

  /** Joining a part in front of a non-empty list puts the separator
      between them. */
  lemma JoinCons(p: string, ps: seq<string>, sep: string)
    requires |ps| >= 1
    ensures Join([p] + ps, sep) == p + sep + Join(ps, sep)
  {
    assert ([p] + ps)[1..] == ps;
  }

  /** Joining a part onto the end of a non-empty list puts the separator
      before it. */
  lemma {:induction false} JoinSnoc(ps: seq<string>, p: string, sep: string)
    requires |ps| >= 1
    ensures Join(ps + [p], sep) == Join(ps, sep) + sep + p
  {
    if |ps| == 1 {
      assert ps + [p] == [ps[0]] + [p];
      JoinCons(ps[0], [p], sep);
    } else {
      JoinSnoc(ps[1..], p, sep);
      assert ps + [p] == [ps[0]] + (ps[1..] + [p]);
      JoinCons(ps[0], ps[1..] + [p], sep);
      JoinCons(ps[0], ps[1..], sep);
      assert [ps[0]] + ps[1..] == ps;
    }
  }

  /** A string without the separator is a single part. */
  lemma {:induction false} SplitNoSep(s: string, sep: char)
    requires sep !in s
    ensures Split(s, sep) == [s]
  {
    if s != [] {
      assert s[0] in s;
      SplitNoSep(s[1..], sep);
      assert [s[0]] + s[1..] == s;
    }
  }

  /** Splitting `a + [sep] + b`, where `a` holds no separator, yields `a`
      followed by the parts of `b`. */
  lemma {:induction false} SplitAfterPart(a: string, sep: char, b: string)
    requires sep !in a
    ensures Split(a + [sep] + b, sep) == [a] + Split(b, sep)
  {
    if a == [] {
      assert a + [sep] + b == [sep] + b;
      assert ([sep] + b)[1..] == b;
    } else {
      var s := a + [sep] + b;
      assert s[0] == a[0];
      assert s[1..] == a[1..] + [sep] + b;
      assert a[0] in a;
      SplitAfterPart(a[1..], sep, b);
      assert [a[0]] + a[1..] == a;
    }
  }

  /** Splitting `a + [sep] + b`, where `b` holds no separator, yields the
      parts of `a` followed by `b`. */
  lemma {:induction false} SplitBeforePart(a: string, sep: char, b: string)
    requires sep !in b
    ensures Split(a + [sep] + b, sep) == Split(a, sep) + [b]
  {
    var s := a + [sep] + b;
    if a == [] {
      assert s == [sep] + b;
      assert s[1..] == b;
      SplitNoSep(b, sep);
    } else {
      assert s[0] == a[0];
      assert s[1..] == a[1..] + [sep] + b;
      SplitBeforePart(a[1..], sep, b);
      var rest := Split(a[1..], sep);
      if a[0] == sep {
        assert Split(s, sep) == [[]] + (rest + [b]);
      } else {
        assert Split(s, sep) == [[a[0]] + (rest + [b])[0]] + (rest + [b])[1..];
        assert (rest + [b])[0] == rest[0];
        assert (rest + [b])[1..] == rest[1..] + [b];
      }
    }
  }

  /** Prefixing a non-separator character extends the first part only. */
  lemma SplitCons(c: char, s: string, sep: char)
    requires c != sep
    ensures Split([c] + s, sep) == [[c] + Split(s, sep)[0]] + Split(s, sep)[1..]
  {
    assert ([c] + s)[1..] == s;
  }

  /** Upper-cases every string of a list. */
  function UpperAll(ps: seq<string>): (us: seq<string>)
    ensures |us| == |ps|
    ensures forall i :: 0 <= i < |ps| ==> us[i] == Upper(ps[i])
  {
    seq(|ps|, i requires 0 <= i < |ps| => Upper(ps[i]))
  }

  /** Upper-casing a joined string upper-cases each part, when the
      separator is its own upper case. */
  lemma {:induction false} UpperJoin(ps: seq<string>, sep: string)
    requires Upper(sep) == sep
    ensures Upper(Join(ps, sep)) == Join(UpperAll(ps), sep)
  {
    if |ps| > 1 {
      UpperJoin(ps[1..], sep);
      UpperAppend(ps[0] + sep, Join(ps[1..], sep));
      UpperAppend(ps[0], sep);
      assert UpperAll(ps)[1..] == UpperAll(ps[1..]);
    }
  }

  /** Upper-casing can only produce a character other than an upper-case
      letter where that character already was. */
  lemma UpperKeepsOut(s: string, c: char)
    requires c !in s && !('A' <= c <= 'Z')
    ensures c !in Upper(s)
  {
    forall i | 0 <= i < |s| ensures Upper(s)[i] != c {
      assert s[i] != c;
    }
  }
}
