/**
 * The round trip without any assumption about white space. Trimming removes more than the space and the tab that
 * separate items, and what it removes is lost: a count of those other white space characters shows that nothing else
 * in the text can make up for it.
 */
module WireExact {
  import opened Protocol
  import opened Sequences
  import opened Text
  import opened Wire
  import opened WireLaws

  predicate Stray(c: char) {
    Space(c) && c !in BLANKS
  }

  /** How many white space characters other than space and tab. */
  function Strays(s: string): nat {
    if s == "" then 0 else Strays(s[..|s| - 1]) + if Stray(s[|s| - 1]) then 1 else 0
  }

  lemma {:induction false} StraysConcat(a: string, b: string)
    ensures Strays(a + b) == Strays(a) + Strays(b)
  {
    hide Stray;
    if b == "" {
      assert a + b == a;
    } else {
      StraysConcat(a, b[..|b| - 1]);
      assert (a + b)[..|a + b| - 1] == a + b[..|b| - 1];
    }
  }

  lemma StraysOfSlice(s: string, i: nat, j: nat)
    requires i <= j <= |s|
    ensures Strays(s[i..j]) <= Strays(s)
  {
    hide Strays;
    StraysConcat(s[..i], s[i..j]);
    StraysConcat(s[..j], s[j..]);
    assert s[..i] + s[i..j] == s[..j] && s[..j] + s[j..] == s;
  }

  lemma StraysOfOne(c: char)
    ensures Strays([c]) == if Stray(c) then 1 else 0
  {
    assert [c][..0] == "";
  }

  lemma {:induction false} NoStrays(s: string)
    requires forall i :: 0 <= i < |s| ==> !Space(s[i])
    ensures Strays(s) == 0
  {
    if s != "" {
      NoStrays(s[..|s| - 1]);
    }
  }

  /** Losing a stray character at either end makes a text poorer. */
  lemma StrayEndsCount(s: string, i: nat, j: nat)
    requires s != "" && i <= j <= |s|
    requires (Stray(s[0]) && i > 0) || (Stray(s[|s| - 1]) && j < |s|)
    ensures Strays(s[i..j]) < Strays(s)
  {
    hide Strays, Stray;
    var n := |s|;
    if Stray(s[0]) && i > 0 {
      StraysConcat([s[0]], s[1..]);
      StraysOfOne(s[0]);
      StraysOfSlice(s[1..], i - 1, j - 1);
      assert [s[0]] + s[1..] == s && s[1..][i - 1..j - 1] == s[i..j];
    } else {
      StraysConcat(s[..n - 1], [s[n - 1]]);
      StraysOfOne(s[n - 1]);
      StraysOfSlice(s[..n - 1], i, j);
      assert s[..n - 1] + [s[n - 1]] == s && s[..n - 1][i..j] == s[i..j];
    }
  }

  // ---------- items ----------

  function ItemStrays(it: Item): nat {
    match it
    case Field(k, v) => Strays(k) + Strays(v)
    case Tag(t) => Strays(t)
  }

  function BodyStrays(items: seq<Item>): nat {
    if items == [] then 0 else BodyStrays(items[..|items| - 1]) + ItemStrays(items[|items| - 1])
  }

  lemma BodyStraysSnoc(items: seq<Item>, it: Item)
    ensures BodyStrays(items + [it]) == BodyStrays(items) + ItemStrays(it)
  {
    assert (items + [it])[..|items|] == items;
  }

  lemma {:induction false} BodyStraysConcat(a: seq<Item>, b: seq<Item>)
    ensures BodyStrays(a + b) == BodyStrays(a) + BodyStrays(b)
  {
    hide ItemStrays;
    if b == [] {
      assert a + b == a;
    } else {
      BodyStraysConcat(a, b[..|b| - 1]);
      assert (a + b)[..|a + b| - 1] == a + b[..|b| - 1];
    }
  }

  lemma BodyStraysOfOne(it: Item)
    ensures BodyStrays([it]) == ItemStrays(it) && BodyStrays([]) == 0
  {
    assert [it][..0] == [];
  }

  lemma ItemTextStrays(it: Item)
    ensures Strays(ItemText(it)) == ItemStrays(it)
  {
    hide Strays, HasBlank;
    match it {
      case Tag(t) =>
        NoStrays("#");
        StraysConcat("#", t);
      case Field(k, v) =>
        NoStrays("=");
        NoStrays("=\"");
        NoStrays("\"");
        StraysConcat(k, "=");
        StraysConcat(k + "=", v);
        StraysConcat(k, "=\"");
        StraysConcat(k + "=\"", v);
        StraysConcat(k + "=\"" + v, "\"");
    }
  }

  lemma {:induction false} BodyTextStrays(items: seq<Item>)
    ensures Strays(BodyText(items)) == BodyStrays(items)
  {
    if items != [] {
      hide Strays, ItemText, ItemStrays;
      var front, last := items[..|items| - 1], items[|items| - 1];
      BodyTextStrays(front);
      ItemTextStrays(last);
      StraysOfOne(' ');
      StraysConcat(BodyText(front), " ");
      StraysConcat(BodyText(front) + " ", ItemText(last));
    }
  }

  // ---------- the tokenizer finds no more strays than there are ----------

  lemma ValueStrays(key: string, v: string, n: nat)
    requires NextValue(key, v, n).Emit?
    ensures var r := NextValue(key, v, n);
      r.item.Field? && r.item.key == key && Strays(r.item.value) <= Strays(v[..r.n - n])
  {
    hide Strays, Find;
    var r := NextValue(key, v, n);
    var used, size := v[..r.n - n], |r.item.value|;
    if v != "" && v[0] == '"' {
      assert r.item.value == used[1..1 + size];
      StraysOfSlice(used, 1, 1 + size);
    }
  }

  lemma NextStrays(s: string)
    requires s != "" && Next(s).Emit?
    ensures ItemStrays(Next(s).item) <= Strays(s[..Next(s).n])
  {
    hide Strays, Find, NextValue;
    var used := s[..Next(s).n];
    if s[0] == '#' {
      assert Next(s).item.tag == used[1..|used|];
      StraysOfSlice(used, 1, |used|);
    } else {
      var n := Find(s, KEY_STOPS);
      ValueStrays(s[..n], s[n + 1..], n + 1);
      KeyThenValue(s, n, |used|);
    }
  }

  lemma KeyThenValue(s: string, n: nat, end: nat)
    requires n < end <= |s|
    ensures Strays(s[..n]) + Strays(s[n + 1..][..end - (n + 1)]) <= Strays(s[..end])
  {
    hide Strays;
    StraysConcat(s[..n + 1], s[n + 1..][..end - (n + 1)]);
    StraysOfSlice(s[..n + 1], 0, n);
    assert s[..n + 1][0..n] == s[..n];
    assert s[..n + 1] + s[n + 1..][..end - (n + 1)] == s[..end];
  }

  lemma {:induction false} LexStrays(s: string)
    ensures Lex(s).Ok? ==> BodyStrays(Lex(s).value) <= Strays(s)
    decreases |s|
  {
    hide Strays, Next, ItemStrays, BodyStrays;
    if s != "" {
      match Next(s) {
        case Skip(n) =>
          LexStrays(s[n..]);
          StraysOfSlice(s, n, |s|);
          assert s[n..|s|] == s[n..];
        case Emit(it, n) =>
          LexStrays(s[n..]);
          NextStrays(s);
          StraysConcat(s[..n], s[n..]);
          assert s[..n] + s[n..] == s;
          if Lex(s[n..]).Ok? {
            BodyStraysConcat([it], Lex(s[n..]).value);
            BodyStraysOfOne(it);
          }
        case Fail(_) =>
      }
    } else {
      BodyStraysOfOne(Tag(""));
    }
  }

  // ---------- the fields and tags hold no more strays than the items ----------

  lemma DropOne(keys: seq<string>, j: nat)
    requires j < |keys| && NoneTwice(keys)
    ensures var rest := keys[..j] + keys[j + 1..];
      NoneTwice(rest) && forall x :: x in rest ==> x in keys && x != keys[j]
  {
    var rest := keys[..j] + keys[j + 1..];
    assert forall i :: 0 <= i < |rest| ==> rest[i] == keys[if i < j then i else i + 1];
  }

  lemma FieldItemsSplit(keys: seq<string>, j: nat, after: map<string, string>)
    requires j < |keys| && forall x :: x in keys ==> x in after
    ensures var rest := keys[..j] + keys[j + 1..];
      && (forall x :: x in rest ==> x in after)
      && BodyStrays(FieldItems(keys, after))
        == BodyStrays(FieldItems(rest, after)) + ItemStrays(Field(keys[j], after[keys[j]]))
  {
    hide BodyStrays, ItemStrays;
    var l, r, it := keys[..j], keys[j + 1..], Field(keys[j], after[keys[j]]);
    assert forall i :: 0 <= i < |l + r| ==> (l + r)[i] == keys[if i < j then i else i + 1];
    var a, b := FieldItems(l + r, after)[..j], FieldItems(l + r, after)[j..];
    assert FieldItems(keys, after) == a + [it] + b;
    assert FieldItems(l + r, after) == a + b;
    BodyStraysConcat(a + [it], b);
    BodyStraysConcat(a, [it]);
    BodyStraysConcat(a, b);
    BodyStraysOfOne(it);
  }

  lemma FieldItemsDrop(keys: seq<string>, j: nat, before: map<string, string>, k: string, v: string)
    requires j < |keys| && keys[j] == k && NoneTwice(keys)
    requires forall x :: x in keys ==> x == k || x in before
    ensures var rest := keys[..j] + keys[j + 1..];
      && NoneTwice(rest) && (forall x :: x in rest ==> x in before)
      && BodyStrays(FieldItems(keys, before[k := v])) == BodyStrays(FieldItems(rest, before)) + ItemStrays(Field(k, v))
  {
    hide BodyStrays, ItemStrays, NoneTwice;
    DropOne(keys, j);
    FieldItemsSplit(keys, j, before[k := v]);
    var rest := keys[..j] + keys[j + 1..];
    forall i | 0 <= i < |rest| ensures rest[i] in before && rest[i] != k {
      assert rest[i] in rest;
    }
    assert FieldItems(rest, before[k := v]) == FieldItems(rest, before);
  }

  lemma {:induction false} CollectedStrays(items: seq<Item>, keys: seq<string>)
    requires NoneTwice(keys) && forall k :: k in keys ==> k in FieldsOf(items)
    ensures BodyStrays(FieldItems(keys, FieldsOf(items))) + BodyStrays(TagItems(TagsOf(items))) <= BodyStrays(items)
    decreases |items|
  {
    hide ItemStrays, NoneTwice;
    if items == [] {
      if keys != [] {
        HasMember(keys);
      }
    } else {
      var front, last := items[..|items| - 1], items[|items| - 1];
      match last {
        case Tag(t) =>
          CollectedStrays(front, keys);
          BodyStraysSnoc(TagItems(TagsOf(front)), last);
          TagItemsSnoc([], TagsOf(front), t);
          assert TagItems(TagsOf(items)) == TagItems(TagsOf(front)) + [last];
        case Field(k, v) =>
          if j: nat :| j < |keys| && keys[j] == k {
            FieldItemsDrop(keys, j, FieldsOf(front), k, v);
            CollectedStrays(front, keys[..j] + keys[j + 1..]);
          } else {
            CollectedStrays(front, keys);
            assert FieldItems(keys, FieldsOf(items)) == FieldItems(keys, FieldsOf(front));
          }
      }
    }
  }

  /** Whatever items a message was collected from, they held at least the strays that are in the message. */
  lemma MessageStrays(m: Message, items: seq<Item>)
    requires FieldsOf(items) == m.fields && TagsOf(items) == m.tags
    ensures BodyStrays(ItemsOf(m)) <= BodyStrays(items)
  {
    hide BodyStrays, FieldsOf, TagsOf;
    var keys := SortedKeys(m.fields.Keys);
    forall i, j | 0 <= i < j < |keys| ensures keys[i] != keys[j] {
      BeforeTotal(keys[i], keys[j]);
    }
    CollectedStrays(items, keys);
    BodyStraysConcat(FieldItems(keys, m.fields), TagItems(m.tags));
  }

  // ---------- what trimming removes ----------

  lemma RestIsSlice(word: string, body: string, t: string) returns (i: nat, j: nat)
    requires t <= word + " " + body && Find(t, BLANKS) == |word|
    ensures i <= j <= |body| && AfterFirstWord(t) == body[i..j]
  {
    hide Space, TrimSpace, Find;
    var n := |word|;
    if n == |t| {
      return 0, 0;
    }
    var rest := t[n + 1..];
    assert rest == body[..|rest|];
    TrimSpaceEnds(rest);
    i, j :| 0 <= i <= j <= |rest| && TrimSpace(rest) == rest[i..j];
    assert rest[i..j] == body[i..j];
  }

  lemma AfterWordIsSlice(word: string, body: string) returns (i: nat, j: nat)
    requires word != "" && forall i :: 0 <= i < |word| ==> !Space(word[i]) && word[i] !in BLANKS
    ensures i <= j <= |body| && AfterFirstWord(TrimSpace(word + " " + body)) == body[i..j]
  {
    var s := word + " " + body;
    assert s[0] == word[0];
    hide *;
    TrimSpaceRight(s);
    assert word + (" " + body) == s;
    WordThenRest(word, " " + body);
    WordLength(TrimSpace(s), word);
    i, j := RestIsSlice(word, body, TrimSpace(s));
  }

  lemma WordLength(t: string, word: string)
    requires FirstWord(t) == word
    ensures Find(t, BLANKS) == |word|
  {
  }

  /** After the first word, trimming has removed at least one stray from a body that does not begin and end cleanly. */
  lemma BodyLosesStray(word: string, body: string)
    requires word != "" && forall i :: 0 <= i < |word| ==> !Space(word[i]) && word[i] !in BLANKS
    requires body != "" && (Stray(body[0]) || Stray(body[|body| - 1]))
    ensures Strays(AfterFirstWord(TrimSpace(word + " " + body))) < Strays(body)
  {
    hide Strays, TrimSpace, Find, AfterFirstWord, Space;
    var t := TrimSpace(word + " " + body);
    var i, j := AfterWordIsSlice(word, body);
    AfterFirstWordTrimmed(t);
    TrimSpaceEnds(AfterFirstWord(t));
    if i == j {
      NothingHasNone();
      SomeStrays(body);
    } else {
      assert AfterFirstWord(t)[0] == body[i] && AfterFirstWord(t)[j - i - 1] == body[j - 1];
      StrayEndsCount(body, i, j);
    }
  }

  lemma NothingHasNone()
    ensures Strays("") == 0
  {
  }

  lemma SomeStrays(s: string)
    requires s != "" && (Stray(s[0]) || Stray(s[|s| - 1]))
    ensures Strays(s) > 0
  {
    hide Stray;
    StraysOfOne(s[0]);
    StraysConcat([s[0]], s[1..]);
    assert [s[0]] + s[1..] == s;
  }

  // ---------- the exact round trip ----------

  lemma LostEndsAreNoticed(m: Message)
    requires WireSafe(m) && !EndsStay(m)
    ensures Parsed(Format(m)) != Ok(Bare(m))
  {
    hide *;
    var items, body := LooseBody(m);
    BodyLosesStray(Name(m.action), body);
    var seen := AfterFirstWord(TrimSpace(Format(m)));
    FirstWordIsAction(m);
    if Parsed(Format(m)) == Ok(Bare(m)) {
      var found := WhatWasLexed(m, seen);
      LexStrays(seen);
      MessageStrays(m, found);
      BodyTextStrays(items);
      StraysConcat(" ", body);
    }
  }

  lemma LooseBody(m: Message) returns (items: seq<Item>, body: string)
    requires WireSafe(m) && !EndsStay(m)
    ensures items == ItemsOf(m) && BodyText(items) == " " + body && Format(m) == Name(m.action) + " " + body
    ensures body != "" && (Stray(body[0]) || Stray(body[|body| - 1]))
    ensures Name(m.action) != ""
    ensures forall i :: 0 <= i < |Name(m.action)| ==> !Space(Name(m.action)[i]) && Name(m.action)[i] !in BLANKS
    ensures m.action != SharingContext
  {
    hide WireSafe, Name, AllGood, BodyText, ItemsOf, Format, Space;
    items, body := ItemsOf(m), PrintedItems(m);
    NameIsOneWord(m.action);
    FormatParts(m);
    ItemsAreGood(m);
    BodyTextStart(items);
    BodyEnds(items);
    assert BodyText(items) == " " + body;
    assert Name(m.action) + (" " + body) == Name(m.action) + " " + body;
  }

  lemma WhatWasLexed(m: Message, seen: string) returns (items: seq<Item>)
    requires Parsed(Format(m)) == Ok(Bare(m)) && m.action != SharingContext
    requires seen == AfterFirstWord(TrimSpace(Format(m)))
    ensures Lex(seen) == Ok(items) && FieldsOf(items) == m.fields && TagsOf(items) == m.tags
  {
    hide Format, TrimSpace, Name, Lettered;
    items := Lex(seen).value;
  }

  /**
   * The exact round trip, for every message: parsing what was printed gives the message back if and only if its
   * parts are ones the wire can carry and no other white space than space and tab stands at the ends of the body.
   */
  lemma RoundTripExactly(m: Message)
    ensures Parsed(Format(m)) == Ok(Bare(m)) <==> WireSafe(m) && EndsStay(m)
  {
    hide WireSafe, EndsStay, Parsed, Format;
    if Parsed(Format(m)) == Ok(Bare(m)) {
      ParsedIsWireSafe(Format(m));
      SafeIgnoresDispatcher(m);
      if !EndsStay(m) {
        LostEndsAreNoticed(m);
      }
    } else if WireSafe(m) && EndsStay(m) {
      if m.action == SharingContext {
        SafePayloadReadsBack(m);
      } else {
        SafeBodyReadsBack(m);
      }
    }
  }

  /** Whatever was parsed prints to the same message again exactly when its body keeps its ends. */
  lemma NormalFormExactly(raw: string)
    requires Parsed(raw).Ok?
    ensures Parsed(Format(Parsed(raw).value)) == Parsed(raw) <==> EndsStay(Parsed(raw).value)
  {
    hide EndsStay, WireSafe, Format;
    ParsedIsWireSafe(raw);
    ParsedIsBare(raw);
    hide *;
    RoundTripExactly(Parsed(raw).value);
  }

  /** A value that ends in a newline is the simplest casualty: without other fields and tags the newline is lost. */
  lemma FinalNewlineIsLost(a: Action)
    requires a != SharingContext
    ensures var m := NewMessage(a, map["k" := "v\n"], []);
      WireSafe(m) && Parsed(Format(m)) != Ok(Bare(m))
  {
    var m := NewMessage(a, map["k" := "v\n"], []);
    LoneField("k", "v\n", m);
    hide Parsed, Format, ItemsOf, BodyText;
    LostEndsAreNoticed(m);
  }

  lemma LoneField(k: string, v: string, m: Message)
    requires m.fields == map[k := v] && m.tags == [] && !HasBlank(v)
    ensures ItemsOf(m) == [Field(k, v)] && PrintedItems(m) == k + "=" + v
  {
    AscendingUnique(SortedKeys(m.fields.Keys), [k]);
    assert ItemsOf(m) == [] + [Field(k, v)];
    BodyTextSnoc([], Field(k, v));
    assert BodyText(ItemsOf(m)) == " " + (k + "=" + v);
  }
}
