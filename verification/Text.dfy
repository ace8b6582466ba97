/** The string functions of Go's strings, sort and unicode packages that the protocol uses, over Unicode text. */
module Text {

  const BLANKS := {' ', '\t'}

  /** unicode.IsSpace. */
  predicate Space(c: char) {
    || '\t' <= c <= '\r' || c == ' ' || c == '\U{85}' || c == '\U{A0}' || c == '\U{1680}'
    || '\U{2000}' <= c <= '\U{200A}' || c == '\U{2028}' || c == '\U{2029}' || c == '\U{202F}'
    || c == '\U{205F}' || c == '\U{3000}'
  }

  /** No white space but space and tab. */
  predicate PlainSpaces(s: string) {
    forall i :: 0 <= i < |s| ==> Space(s[i]) ==> s[i] in BLANKS
  }

  function TrimLeft(s: string): string {
    if s != "" && Space(s[0]) then TrimLeft(s[1..]) else s
  }

  function TrimRight(s: string): string {
    if s != "" && Space(s[|s| - 1]) then TrimRight(s[..|s| - 1]) else s
  }

  /** strings.TrimSpace. */
  function TrimSpace(s: string): string {
    TrimRight(TrimLeft(s))
  }

  predicate Trimmed(s: string) {
    s == "" || (!Space(s[0]) && !Space(s[|s| - 1]))
  }

  lemma {:induction false} TrimRightEnd(s: string)
    ensures TrimRight(s) <= s
    ensures TrimRight(s) == "" || !Space(TrimRight(s)[|TrimRight(s)| - 1])
    ensures forall i :: |TrimRight(s)| <= i < |s| ==> Space(s[i])
  {
    if s != "" && Space(s[|s| - 1]) {
      TrimRightEnd(s[..|s| - 1]);
    }
  }

  lemma {:induction false} TrimLeftStart(s: string)
    ensures TrimLeft(s) == "" || !Space(TrimLeft(s)[0])
    ensures |TrimLeft(s)| <= |s| && TrimLeft(s) == s[|s| - |TrimLeft(s)|..]
    ensures forall i :: 0 <= i < |s| - |TrimLeft(s)| ==> Space(s[i])
  {
    if s != "" && Space(s[0]) {
      TrimLeftStart(s[1..]);
    }
  }

  /** TrimSpace removes exactly the white space at both ends. */
  lemma TrimSpaceEnds(s: string)
    ensures Trimmed(TrimSpace(s))
    ensures Trimmed(s) ==> TrimSpace(s) == s
    ensures exists i, j :: 0 <= i <= j <= |s| && TrimSpace(s) == s[i..j]
    ensures PlainSpaces(s) ==> PlainSpaces(TrimSpace(s))
  {
    TrimLeftStart(s);
    TrimRightEnd(TrimLeft(s));
    var i := |s| - |TrimLeft(s)|;
    assert TrimSpace(s) == s[i..i + |TrimSpace(s)|];
  }

  /** Trimming only the right end when the left is already clean. */
  lemma TrimSpaceRight(s: string)
    requires s != "" && !Space(s[0])
    ensures TrimSpace(s) == TrimRight(s) != "" && TrimSpace(s) <= s
    ensures forall i :: |TrimSpace(s)| <= i < |s| ==> Space(s[i])
  {
    TrimRightEnd(s);
  }

  /** The first index holding one of the stops, or |s|. */
  function Find(s: string, stops: set<char>): (n: nat)
    ensures n <= |s|
    ensures forall k :: 0 <= k < n ==> s[k] !in stops
    ensures n < |s| ==> s[n] in stops
  {
    if s == "" || s[0] in stops then 0 else 1 + Find(s[1..], stops)
  }

  lemma FindUnique(s: string, stops: set<char>, n: nat)
    requires n <= |s| && (forall k :: 0 <= k < n ==> s[k] !in stops) && (n < |s| ==> s[n] in stops)
    ensures Find(s, stops) == n
  {
  }

  /** strings.ToUpper as far as Parse can tell: these are the only letters whose upper case is ASCII. */
  function Upper(c: char): char {
    if 'a' <= c <= 'z' then (c as int - 32) as char
    else if c == '\U{131}' then 'I'
    else if c == '\U{17F}' then 'S'
    else c
  }

  function ToUpper(s: string): (r: string)
    ensures |r| == |s| && forall i :: 0 <= i < |s| ==> r[i] == Upper(s[i])
  {
    seq(|s|, i requires 0 <= i < |s| => Upper(s[i]))
  }

  // ---------- the order of sort.Strings ----------

  predicate Before(a: string, b: string) {
    b != "" && (a == "" || a[0] < b[0] || (a[0] == b[0] && Before(a[1..], b[1..])))
  }

  lemma {:induction false} BeforeTotal(a: string, b: string)
    ensures a == b || Before(a, b) || Before(b, a)
    ensures Before(a, b) ==> !Before(b, a) && a != b
  {
    if a != "" && b != "" {
      BeforeTotal(a[1..], b[1..]);
      if a[0] == b[0] && a[1..] == b[1..] {
        assert a == [a[0]] + a[1..] && b == [b[0]] + b[1..];
      }
    }
  }

  lemma {:induction false} BeforeTrans(a: string, b: string, c: string)
    requires Before(a, b) && Before(b, c)
    ensures Before(a, c)
  {
    if a != "" && a[0] == b[0] == c[0] {
      BeforeTrans(a[1..], b[1..], c[1..]);
    }
  }

  /** The order of strings: a proper prefix comes first, otherwise the first difference decides. */
  lemma {:induction false} FirstDifferenceDecides(a: string, b: string, i: nat)
    requires i <= |a| && i <= |b| && a[..i] == b[..i]
    ensures i == |a| && i < |b| ==> Before(a, b)
    ensures i < |a| && i < |b| && a[i] != b[i] ==> (Before(a, b) <==> a[i] < b[i])
    ensures i == |b| ==> !Before(a, b)
  {
    if i > 0 {
      assert a[0] == a[..i][0] == b[..i][0] == b[0];
      assert a[1..][..i - 1] == a[..i][1..] == b[..i][1..] == b[1..][..i - 1];
      FirstDifferenceDecides(a[1..], b[1..], i - 1);
    }
  }

  predicate Ascending(xs: seq<string>) {
    forall i, j :: 0 <= i < j < |xs| ==> Before(xs[i], xs[j])
  }

  function Insert(xs: seq<string>, x: string): seq<string> {
    if xs == [] || Before(xs[|xs| - 1], x) then xs + [x] else Insert(xs[..|xs| - 1], x) + [xs[|xs| - 1]]
  }

  lemma {:induction false} InsertKeepsAscending(xs: seq<string>, x: string)
    requires Ascending(xs) && x !in xs
    ensures Ascending(Insert(xs, x))
    ensures forall y :: y in Insert(xs, x) <==> y in xs || y == x
  {
    if xs == [] {
    } else {
      var front, last := xs[..|xs| - 1], xs[|xs| - 1];
      assert xs == front + [last];
      BeforeTotal(last, x);
      if Before(last, x) {
        forall i | 0 <= i < |xs| - 1 ensures Before(xs[i], x) {
          BeforeTrans(xs[i], last, x);
        }
      } else {
        InsertKeepsAscending(front, x);
        var r := Insert(front, x);
        forall i | 0 <= i < |r| ensures Before(r[i], last) {
          assert r[i] in r;
          if r[i] != x {
            var k :| 0 <= k < |front| && front[k] == r[i];
            assert Before(xs[k], xs[|xs| - 1]);
          }
        }
      }
    }
  }

  lemma HasMember(xs: seq<string>)
    requires xs != []
    ensures exists k :: k in xs
  {
    assert xs[0] in xs;
  }

  lemma SplitLast(xs: seq<string>)
    requires Ascending(xs) && xs != []
    ensures var front, last := xs[..|xs| - 1], xs[|xs| - 1];
      Ascending(front) && last !in front && forall k :: k in xs <==> k in front || k == last
    ensures forall k :: k in xs ==> k == xs[|xs| - 1] || Before(k, xs[|xs| - 1])
  {
    LastIsNew(xs);
    assert xs == xs[..|xs| - 1] + [xs[|xs| - 1]];
  }

  /** A strictly ascending list is determined by its members. */
  lemma {:induction false} AscendingUnique(xs: seq<string>, ys: seq<string>)
    requires Ascending(xs) && Ascending(ys)
    requires forall k :: k in xs <==> k in ys
    ensures xs == ys
  {
    hide Ascending, Before;
    if xs != [] && ys != [] {
      SplitLast(xs);
      SplitLast(ys);
      var x, y := xs[|xs| - 1], ys[|ys| - 1];
      assert x in ys && y in xs;
      BeforeTotal(x, y);
      assert x == y;
      AscendingUnique(xs[..|xs| - 1], ys[..|ys| - 1]);
      assert xs == xs[..|xs| - 1] + [x] && ys == ys[..|ys| - 1] + [y];
    } else if xs != [] {
      HasMember(xs);
    } else if ys != [] {
      HasMember(ys);
    }
  }

  lemma LastIsNew(xs: seq<string>)
    requires Ascending(xs) && xs != []
    ensures xs[|xs| - 1] !in xs[..|xs| - 1]
  {
    forall i | 0 <= i < |xs| - 1 ensures xs[i] != xs[|xs| - 1] {
      BeforeTotal(xs[i], xs[|xs| - 1]);
    }
  }

  lemma SortedExists(keys: set<string>) returns (r: seq<string>)
    ensures Ascending(r) && forall k :: k in r <==> k in keys
  {
    if keys == {} {
      r := [];
    } else {
      var k :| k in keys;
      var rest := SortedExists(keys - {k});
      InsertKeepsAscending(rest, k);
      r := Insert(rest, k);
    }
  }

  /** The keys of a map in the order of sort.Strings. */
  ghost function SortedKeys(keys: set<string>): (r: seq<string>)
    ensures Ascending(r) && forall k :: k in r <==> k in keys
  {
    assert exists r :: Ascending(r) && forall k :: k in r <==> k in keys by {
      var r := SortedExists(keys);
    }
    var r :| Ascending(r) && forall k :: k in r <==> k in keys;
    r
  }
}
