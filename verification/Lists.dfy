/** Comma lists: joinComma of the spawner, splitComma of the manager, splitChannels of the configuration loader. */
module Lists {
  import opened Text

  /** joinComma, and strings.Join with a comma. */
  function JoinComma(xs: seq<string>): string {
    if xs == [] then ""
    else if |xs| == 1 then xs[0]
    else JoinComma(xs[..|xs| - 1]) + "," + xs[|xs| - 1]
  }

  /** strings.Split(s, ","). */
  function Pieces(s: string): (p: seq<string>)
    ensures |p| > 0
  {
    if s == "" then [""]
    else
      var p, c := Pieces(s[..|s| - 1]), s[|s| - 1];
      if c == ',' then p + [""] else p[..|p| - 1] + [p[|p| - 1] + [c]]
  }

  function TrimBlankLeft(s: string): string {
    if s != "" && s[0] in BLANKS then TrimBlankLeft(s[1..]) else s
  }

  function TrimBlankRight(s: string): string {
    if s != "" && s[|s| - 1] in BLANKS then TrimBlankRight(s[..|s| - 1]) else s
  }

  /** trimSpace of the manager, which knows only space and tab. */
  function TrimBlanks(s: string): string {
    TrimBlankRight(TrimBlankLeft(s))
  }

  function TrimEach(ps: seq<string>): (r: seq<string>)
    ensures |r| == |ps| && forall i :: 0 <= i < |r| ==> r[i] == TrimBlanks(ps[i])
  {
    seq(|ps|, i requires 0 <= i < |ps| => TrimBlanks(ps[i]))
  }

  function TrimEachSpace(ps: seq<string>): (r: seq<string>)
    ensures |r| == |ps| && forall i :: 0 <= i < |r| ==> r[i] == TrimSpace(ps[i])
  {
    seq(|ps|, i requires 0 <= i < |ps| => TrimSpace(ps[i]))
  }

  function NonEmpty(ps: seq<string>): seq<string> {
    if ps == [] then []
    else NonEmpty(ps[..|ps| - 1]) + (if ps[|ps| - 1] != "" then [ps[|ps| - 1]] else [])
  }

  function CommaList(s: string): seq<string> {
    if s == "" then [] else NonEmpty(TrimEach(Pieces(s)))
  }

  function ChannelList(s: string): seq<string> {
    if s == "" then [] else NonEmpty(TrimEachSpace(Pieces(s)))
  }

  // ---------- the methods ----------

  method JoinLoop(xs: seq<string>) returns (r: string)
    ensures r == JoinComma(xs)
  {
    r := "";
    for i := 0 to |xs|
      invariant r == JoinComma(xs[..i])
    {
      JoinNext(xs, i);
      if i > 0 {
        r := r + ",";
      }
      r := r + xs[i];
    }
    assert xs[..|xs|] == xs;
  }

  lemma JoinNext(xs: seq<string>, i: nat)
    requires i < |xs|
    ensures JoinComma(xs[..i + 1]) == if i > 0 then JoinComma(xs[..i]) + "," + xs[i] else xs[i]
    ensures i == 0 ==> JoinComma(xs[..i]) + xs[i] == xs[i]
  {
    assert xs[..i + 1][..i] == xs[..i];
  }

  /** trimSpace: two indices move towards each other. */
  method TrimLoop(s: string) returns (r: string)
    ensures r == TrimBlanks(s)
  {
    var i, j := 0, |s|;
    assert s[0..] == s;
    while i < j && (s[i] == ' ' || s[i] == '\t')
      invariant 0 <= i <= j == |s|
      invariant TrimBlankLeft(s) == TrimBlankLeft(s[i..])
    {
      assert s[i..][1..] == s[i + 1..];
      i := i + 1;
    }
    assert s[i..j] == s[i..];
    assert TrimBlankLeft(s[i..]) == s[i..] by {
      assert i < |s| ==> s[i..][0] == s[i];
    }
    while j > i && (s[j - 1] == ' ' || s[j - 1] == '\t')
      invariant i <= j <= |s|
      invariant TrimBlankRight(s[i..]) == TrimBlankRight(s[i..j])
    {
      assert s[i..j][..j - i - 1] == s[i..j - 1];
      j := j - 1;
    }
    return s[i..j];
  }

  method SplitBy(s: string) returns (result: seq<string>)
    ensures result == TrimEach(Pieces(s))
  {
    hide TrimBlanks;
    result := [];
    var start := 0;
    var i := 0;
    while i < |s|
      invariant 0 <= start <= i <= |s|
      invariant Pieces(s[..i])[|Pieces(s[..i])| - 1] == s[start..i]
      invariant result == TrimEach(Pieces(s[..i])[..|Pieces(s[..i])| - 1])
    {
      PiecesNext(s, i, start);
      if s[i] == ',' {
        var piece := TrimLoop(s[start..i]);
        TrimEachAppend(Pieces(s[..i]), piece);
        result := result + [piece];
        start := i + 1;
      }
      i := i + 1;
    }
    assert s[..i] == s && s[start..i] == s[start..];
    var piece := TrimLoop(s[start..]);
    TrimEachAppend(Pieces(s), piece);
    result := result + [piece];
  }

  lemma PiecesNext(s: string, i: nat, start: nat)
    requires start <= i < |s| && Pieces(s[..i])[|Pieces(s[..i])| - 1] == s[start..i]
    ensures s[i] == ',' ==> Pieces(s[..i + 1]) == Pieces(s[..i]) + [""]
    ensures s[i] != ',' ==> Pieces(s[..i + 1]) == Pieces(s[..i])[..|Pieces(s[..i])| - 1] + [s[start..i + 1]]
  {
    assert s[..i + 1][..i] == s[..i];
    assert s[start..i + 1] == s[start..i] + [s[i]];
  }

  lemma TrimEachAppend(ps: seq<string>, piece: string)
    requires |ps| > 0 && piece == TrimBlanks(ps[|ps| - 1])
    ensures TrimEach(ps[..|ps| - 1]) + [piece] == TrimEach(ps)
    ensures (ps + [""])[..|ps|] == ps
  {
  }

  method KeepNonEmpty(ps: seq<string>) returns (r: seq<string>)
    ensures r == NonEmpty(ps)
  {
    r := [];
    for i := 0 to |ps|
      invariant r == NonEmpty(ps[..i])
    {
      assert ps[..i + 1][..i] == ps[..i];
      if ps[i] != "" {
        r := r + [ps[i]];
      }
    }
    assert ps[..|ps|] == ps;
  }

  method SplitComma(s: string) returns (r: seq<string>)
    ensures r == CommaList(s)
  {
    if s == "" {
      return [];
    }
    var ps := SplitBy(s);
    r := KeepNonEmpty(ps);
  }

  /** Split and TrimSpace are library functions here. */
  method SplitChannels(s: string) returns (channels: seq<string>)
    ensures channels == ChannelList(s)
  {
    if s == "" {
      return [];
    }
    var parts := Pieces(s);
    channels := [];
    for i := 0 to |parts|
      invariant channels == NonEmpty(TrimEachSpace(parts)[..i])
    {
      assert TrimEachSpace(parts)[..i + 1][..i] == TrimEachSpace(parts)[..i];
      var p := TrimSpace(parts[i]);
      if p != "" {
        channels := channels + [p];
      }
    }
    assert TrimEachSpace(parts)[..|parts|] == TrimEachSpace(parts);
  }

  // ---------- splitting undoes joining ----------

  lemma {:induction false} PiecesAfterComma(a: string, b: string)
    requires ',' !in b
    ensures Pieces(a + "," + b) == Pieces(a) + [b]
  {
    if b == "" {
      assert (a + "," + b)[..|a|] == a;
    } else {
      var front, c := b[..|b| - 1], b[|b| - 1];
      assert b == front + [c];
      PiecesAfterComma(a, front);
      assert (a + "," + b)[..|a + "," + b| - 1] == a + "," + front;
      assert c in b;
    }
  }

  lemma {:induction false} PiecesOfPlain(b: string)
    requires ',' !in b
    ensures Pieces(b) == [b]
  {
    if b != "" {
      PiecesOfPlain(b[..|b| - 1]);
      assert b[|b| - 1] in b;
      assert b[..|b| - 1] + [b[|b| - 1]] == b;
    }
  }

  lemma {:induction false} PiecesOfJoin(xs: seq<string>)
    requires xs != [] && forall i :: 0 <= i < |xs| ==> ',' !in xs[i]
    ensures Pieces(JoinComma(xs)) == xs
  {
    if |xs| == 1 {
      PiecesOfPlain(xs[0]);
    } else {
      PiecesOfJoin(xs[..|xs| - 1]);
      PiecesAfterComma(JoinComma(xs[..|xs| - 1]), xs[|xs| - 1]);
      assert xs == xs[..|xs| - 1] + [xs[|xs| - 1]];
    }
  }

  predicate Clean(x: string) {
    x != "" && ',' !in x && TrimBlanks(x) == x
  }

  lemma {:induction false} NonEmptyKeepsAll(ps: seq<string>)
    requires forall i :: 0 <= i < |ps| ==> ps[i] != ""
    ensures NonEmpty(ps) == ps
  {
    if ps != [] {
      NonEmptyKeepsAll(ps[..|ps| - 1]);
      assert ps == ps[..|ps| - 1] + [ps[|ps| - 1]];
    }
  }

  lemma {:induction false} PiecesHaveNoComma(s: string)
    ensures forall i :: 0 <= i < |Pieces(s)| ==> ',' !in Pieces(s)[i]
  {
    if s != "" {
      PiecesHaveNoComma(s[..|s| - 1]);
    }
  }

  lemma {:induction false} NonEmptyMembers(ps: seq<string>)
    ensures forall x :: x in NonEmpty(ps) ==> x in ps && x != ""
  {
    if ps != [] {
      NonEmptyMembers(ps[..|ps| - 1]);
      assert ps == ps[..|ps| - 1] + [ps[|ps| - 1]];
    }
  }

  lemma {:induction false} TrimBlankLeftIsSlice(s: string)
    ensures |TrimBlankLeft(s)| <= |s| && TrimBlankLeft(s) == s[|s| - |TrimBlankLeft(s)|..]
    ensures TrimBlankLeft(s) == "" || TrimBlankLeft(s)[0] !in BLANKS
  {
    if s != "" && s[0] in BLANKS {
      TrimBlankLeftIsSlice(s[1..]);
    }
  }

  lemma {:induction false} TrimBlankRightIsPrefix(s: string)
    ensures TrimBlankRight(s) <= s
    ensures TrimBlankRight(s) == "" || TrimBlankRight(s)[|TrimBlankRight(s)| - 1] !in BLANKS
  {
    if s != "" && s[|s| - 1] in BLANKS {
      TrimBlankRightIsPrefix(s[..|s| - 1]);
    }
  }

  lemma TrimBlanksEnds(s: string)
    ensures TrimBlanks(TrimBlanks(s)) == TrimBlanks(s)
    ensures ',' !in s ==> ',' !in TrimBlanks(s)
  {
    TrimBlankLeftIsSlice(s);
    TrimBlankRightIsPrefix(TrimBlankLeft(s));
  }

  /** splitComma gives a list back after joinComma exactly when its elements are non-empty, trimmed and comma-free. */
  lemma SplitUndoesJoin(xs: seq<string>)
    ensures CommaList(JoinComma(xs)) == xs <==> forall i :: 0 <= i < |xs| ==> Clean(xs[i])
  {
    hide TrimBlanks, NonEmpty, Pieces, JoinComma;
    if forall i :: 0 <= i < |xs| ==> Clean(xs[i]) {
      if xs == [] {
        JoinNothing();
      } else {
        PiecesOfJoin(xs);
        PiecesOfNothing();
        assert TrimEach(xs) == xs;
        NonEmptyKeepsAll(xs);
        assert |xs| == 1 ==> xs[0] != "";
        JoinOfCleanNotEmpty(xs);
      }
    } else {
      SplitIsClean(JoinComma(xs));
    }
  }

  lemma JoinNothing()
    ensures JoinComma([]) == ""
  {
  }

  lemma PiecesOfNothing()
    ensures Pieces("") == [""]
  {
  }

  lemma JoinOfCleanNotEmpty(xs: seq<string>)
    requires xs != [] && xs[0] != ""
    ensures JoinComma(xs) != ""
  {
  }

  lemma SplitIsClean(s: string)
    ensures forall i :: 0 <= i < |CommaList(s)| ==> Clean(CommaList(s)[i])
  {
    hide TrimBlanks, NonEmpty, Pieces;
    PiecesHaveNoComma(s);
    var ps := TrimEach(Pieces(s));
    NonEmptyMembers(ps);
    forall i | 0 <= i < |CommaList(s)| ensures Clean(CommaList(s)[i]) {
      var x := CommaList(s)[i];
      assert x in NonEmpty(ps);
      var k :| 0 <= k < |ps| && ps[k] == x;
      TrimBlanksEnds(Pieces(s)[k]);
    }
  }

  predicate CleanChannel(x: string) {
    x != "" && ',' !in x && TrimSpace(x) == x
  }

  /** The same for splitChannels, which trims all white space. */
  lemma ChannelsUndoJoin(xs: seq<string>)
    ensures ChannelList(JoinComma(xs)) == xs <==> forall i :: 0 <= i < |xs| ==> CleanChannel(xs[i])
  {
    hide TrimSpace, NonEmpty, Pieces, JoinComma;
    if forall i :: 0 <= i < |xs| ==> CleanChannel(xs[i]) {
      if xs == [] {
        JoinNothing();
      } else {
        PiecesOfJoin(xs);
        assert TrimEachSpace(xs) == xs;
        NonEmptyKeepsAll(xs);
        JoinOfCleanNotEmpty(xs);
      }
    } else {
      ChannelsAreClean(JoinComma(xs));
    }
  }

  lemma ChannelsAreClean(s: string)
    ensures forall i :: 0 <= i < |ChannelList(s)| ==> CleanChannel(ChannelList(s)[i])
  {
    hide TrimSpace, Trimmed, NonEmpty, Pieces;
    PiecesHaveNoComma(s);
    var ps := TrimEachSpace(Pieces(s));
    NonEmptyMembers(ps);
    forall i | 0 <= i < |ChannelList(s)| ensures CleanChannel(ChannelList(s)[i]) {
      var x := ChannelList(s)[i];
      assert x in NonEmpty(ps);
      var k :| 0 <= k < |ps| && ps[k] == x;
      TrimSpaceEnds(Pieces(s)[k]);
      TrimSpaceEnds(x);
    }
  }

  // ---------- the two splitters ----------

  lemma {:induction false} TrimsAgree(s: string)
    requires PlainSpaces(s)
    ensures TrimBlanks(s) == TrimSpace(s)
  {
    LeftTrimsAgree(s);
    TrimLeftStart(s);
    RightTrimsAgree(TrimLeft(s));
  }

  lemma {:induction false} LeftTrimsAgree(s: string)
    requires PlainSpaces(s)
    ensures TrimBlankLeft(s) == TrimLeft(s)
  {
    if s != "" && Space(s[0]) {
      LeftTrimsAgree(s[1..]);
    }
  }

  lemma {:induction false} RightTrimsAgree(s: string)
    requires PlainSpaces(s)
    ensures TrimBlankRight(s) == TrimRight(s)
  {
    if s != "" && Space(s[|s| - 1]) {
      RightTrimsAgree(s[..|s| - 1]);
    }
  }

  lemma {:induction false} PiecesArePlain(s: string)
    requires PlainSpaces(s)
    ensures forall i :: 0 <= i < |Pieces(s)| ==> PlainSpaces(Pieces(s)[i])
  {
    if s != "" {
      hide PlainSpaces;
      PlainParts(s);
      PiecesArePlain(s[..|s| - 1]);
      var p := Pieces(s[..|s| - 1]);
      PlainAppend(p[|p| - 1], s[|s| - 1]);
    }
    assert PlainSpaces("");
  }

  lemma PlainParts(s: string)
    requires s != "" && PlainSpaces(s)
    ensures PlainSpaces(s[..|s| - 1]) && PlainSpaces([s[|s| - 1]]) && PlainSpaces("")
  {
  }

  lemma PlainAppend(s: string, c: char)
    requires PlainSpaces(s) && PlainSpaces([c])
    ensures PlainSpaces(s + [c])
  {
    assert [c][0] == c;
  }

  /** Where space and tab are the only white space, the manager and the loader split alike. */
  lemma SplittersAgree(s: string)
    requires PlainSpaces(s)
    ensures CommaList(s) == ChannelList(s)
  {
    hide PlainSpaces, TrimBlanks, TrimSpace, Pieces, NonEmpty;
    PiecesArePlain(s);
    var ps := Pieces(s);
    forall i | 0 <= i < |ps| ensures TrimBlanks(ps[i]) == TrimSpace(ps[i]) {
      TrimsAgree(ps[i]);
    }
    assert TrimEach(ps) == TrimEachSpace(ps);
  }
}
