/** Printing and parsing are inverse to each other, exactly on the messages that Parse can produce. */
module WireLaws {
  import opened Protocol
  import opened Text
  import opened Wire

  // ---------- which items and messages survive the wire ----------

  predicate GoodKey(k: string) {
    Find(k, KEY_STOPS) == |k| && (k == "" || k[0] != '#')
  }

  /** A value with a space or tab is quoted, so it must not hold a quote; any other must not start with one. */
  predicate GoodValue(v: string) {
    if HasBlank(v) then '"' !in v else v == "" || v[0] != '"'
  }

  predicate GoodTag(t: string) {
    t != "" && !HasBlank(t)
  }

  predicate Good(it: Item) {
    match it
    case Field(k, v) => GoodKey(k) && GoodValue(v)
    case Tag(t) => GoodTag(t)
  }

  predicate AllGood(items: seq<Item>) {
    forall i :: 0 <= i < |items| ==> Good(items[i])
  }

  predicate WireSafe(m: Message) {
    if m.action == SharingContext then
      m.fields == map[] && m.tags == [] && TrimSpace(m.payload) == m.payload
    else
      && m.payload == ""
      && (forall k :: k in m.fields ==> GoodKey(k) && GoodValue(m.fields[k]))
      && (forall i :: 0 <= i < |m.tags| ==> GoodTag(m.tags[i]))
  }

  // ---------- lexing printed text ----------

  lemma NoBlankFind(s: string)
    ensures HasBlank(s) <==> Find(s, BLANKS) < |s|
  {
  }

  /** Reading one printed item back, whatever follows it after a space. */
  lemma NextReadsItem(it: Item, rest: string)
    requires Good(it) && (rest == "" || rest[0] in BLANKS)
    ensures Next(ItemText(it) + rest) == Emit(it, |ItemText(it)|)
  {
    match it {
      case Tag(t) => NextReadsTag(t, rest);
      case Field(k, v) =>
        hide *;
        NextReadsValue(k, v, rest);
        FieldTextThen(k, v, rest);
        NextReadsKey(k, if HasBlank(v) then "\"" + v + "\"" + rest else v + rest);
    }
  }

  lemma FieldTextThen(k: string, v: string, rest: string)
    requires Good(Field(k, v))
    ensures GoodKey(k) && GoodValue(v)
    ensures HasBlank(v) ==> ItemText(Field(k, v)) + rest == k + "=" + ("\"" + v + "\"" + rest)
    ensures !HasBlank(v) ==> ItemText(Field(k, v)) + rest == k + "=" + (v + rest)
    ensures |ItemText(Field(k, v))| == |k| + 1 + |v| + (if HasBlank(v) then 2 else 0)
  {
    hide HasBlank, GoodKey, GoodValue;
    assert k + "=\"" == k + "=" + "\"";
  }

  lemma NextReadsTag(t: string, rest: string)
    requires GoodTag(t) && (rest == "" || rest[0] in BLANKS)
    ensures Next("#" + t + rest) == Emit(Tag(t), 1 + |t|)
  {
    var s := "#" + t + rest;
    assert s[1..] == t + rest;
    FindUnique(s[1..], BLANKS, |t|);
  }

  lemma NextReadsKey(k: string, after: string)
    requires GoodKey(k)
    ensures Next(k + "=" + after) == NextValue(k, after, |k| + 1)
  {
    hide NextValue;
    var s := k + "=" + after;
    FindUnique(s, KEY_STOPS, |k|);
    assert s[..|k|] == k && s[|k| + 1..] == after;
  }

  lemma NextReadsValue(k: string, v: string, rest: string)
    requires GoodValue(v) && (rest == "" || rest[0] in BLANKS)
    ensures HasBlank(v) ==> forall n: nat :: NextValue(k, "\"" + v + "\"" + rest, n) == Emit(Field(k, v), n + |v| + 2)
    ensures !HasBlank(v) ==> forall n: nat :: NextValue(k, v + rest, n) == Emit(Field(k, v), n + |v|)
  {
    if HasBlank(v) {
      var s := "\"" + v + "\"" + rest;
      assert s[1..] == v + ("\"" + rest);
      FindUnique(s[1..], QUOTES, |v|);
      assert s[1..1 + |v|] == v;
    } else {
      FindUnique(v + rest, BLANKS, |v|);
      assert (v + rest)[..|v|] == v;
    }
  }

  lemma ItemTextEnds(it: Item)
    requires Good(it)
    ensures ItemText(it) != "" && ItemText(it)[0] !in BLANKS && ItemText(it)[|ItemText(it)| - 1] !in BLANKS
  {
    match it {
      case Tag(t) =>
        NoBlankFind(t);
      case Field(k, v) =>
        NoBlankFind(v);
    }
  }

  lemma LexSkipsSpace(s: string)
    ensures Lex(" " + s) == Lex(s)
  {
    assert (" " + s)[1..] == s;
  }

  lemma LexReadsItem(it: Item, rest: string)
    requires Good(it) && (rest == "" || rest[0] in BLANKS)
    ensures Lex(" " + ItemText(it) + rest) == Prepend(it, Lex(rest))
  {
    hide Next, ItemText, Good, Find;
    NextReadsItem(it, rest);
    ItemTextNotEmpty(it);
    assert " " + ItemText(it) + rest == " " + (ItemText(it) + rest);
    LexSkipsSpace(ItemText(it) + rest);
    assert (ItemText(it) + rest)[|ItemText(it)|..] == rest;
  }

  lemma ItemTextNotEmpty(it: Item)
    ensures ItemText(it) != ""
  {
  }

  lemma Assoc(a: string, b: string, c: string)
    ensures a + b + c == a + (b + c)
  {
  }

  lemma BodyTextSnoc(items: seq<Item>, it: Item)
    ensures BodyText(items + [it]) == BodyText(items) + (" " + ItemText(it))
  {
    hide ItemText;
    assert (items + [it])[..|items|] == items;
    Assoc(BodyText(items), " ", ItemText(it));
  }

  lemma ConsSnoc(it: Item, items: seq<Item>) returns (front: seq<Item>, last: Item)
    requires items != []
    ensures |front| == |items| - 1 && items == front + [last] && [it] + items == [it] + front + [last]
  {
    front, last := items[..|items| - 1], items[|items| - 1];
  }

  lemma {:induction false} BodyTextCons(it: Item, items: seq<Item>)
    ensures BodyText([it] + items) == " " + ItemText(it) + BodyText(items)
    decreases |items|
  {
    if items == [] {
      assert [it] + items == [] + [it];
      BodyTextSnoc([], it);
    } else {
      hide *;
      var front, last := ConsSnoc(it, items);
      BodyTextCons(it, front);
      BodyTextSnoc(front, last);
      BodyTextSnoc([it] + front, last);
      Assoc(" " + ItemText(it), BodyText(front), " " + ItemText(last));
    }
  }

  lemma BodyTextStart(items: seq<Item>)
    ensures BodyText(items) == "" <==> items == []
    ensures items != [] ==> BodyText(items)[0] == ' '
  {
    if items != [] {
      hide ItemText, BodyText;
      assert [items[0]] + items[1..] == items;
      BodyTextCons(items[0], items[1..]);
    } else {
    }
  }

  /** The tokenizer reads every list of good items back from its text. */
  lemma {:induction false} LexReadsBody(items: seq<Item>)
    requires AllGood(items)
    ensures Lex(BodyText(items)) == Ok(items)
  {
    if items != [] {
      hide ItemText, Good, Lex, BodyText;
      var rest := items[1..];
      assert [items[0]] + rest == items;
      BodyTextCons(items[0], rest);
      LexReadsBody(rest);
      BodyTextStart(rest);
      LexReadsItem(items[0], BodyText(rest));
    }
  }

  // ---------- from items to fields and tags ----------

  lemma TagItemsSnoc(items: seq<Item>, front: seq<string>, t: string)
    ensures items + TagItems(front + [t]) == items + TagItems(front) + [Tag(t)]
  {
  }

  lemma {:induction false} CollectTags(items: seq<Item>, tags: seq<string>)
    ensures FieldsOf(items + TagItems(tags)) == FieldsOf(items)
    ensures TagsOf(items + TagItems(tags)) == TagsOf(items) + tags
  {
    if tags == [] {
      assert items + TagItems(tags) == items;
      assert TagsOf(items) + tags == TagsOf(items);
    } else {
      hide *;
      var front, t := tags[..|tags| - 1], tags[|tags| - 1];
      assert tags == front + [t];
      CollectTags(items, front);
      FieldsAndTags(items + TagItems(front), Tag(t));
      TagItemsSnoc(items, front, t);
      TagsAssoc(TagsOf(items), front, t);
    }
  }

  lemma TagsAssoc(a: seq<string>, b: seq<string>, t: string)
    ensures a + b + [t] == a + (b + [t])
  {
  }

  lemma {:induction false} CollectFields(keys: seq<string>, fields: map<string, string>)
    requires forall k :: k in keys ==> k in fields
    ensures FieldsOf(FieldItems(keys, fields)) == map k | k in keys :: fields[k]
    ensures TagsOf(FieldItems(keys, fields)) == []
  {
    if keys != [] {
      var front, last := keys[..|keys| - 1], keys[|keys| - 1];
      assert keys == front + [last];
      CollectFields(front, fields);
      FieldsAndTags(FieldItems(front, fields), Field(last, fields[last]));
      assert FieldItems(keys, fields) == FieldItems(front, fields) + [Field(last, fields[last])];
    }
  }

  lemma ItemsCollect(m: Message)
    ensures FieldsOf(ItemsOf(m)) == m.fields && TagsOf(ItemsOf(m)) == m.tags
  {
    var keys := SortedKeys(m.fields.Keys);
    CollectFields(keys, m.fields);
    CollectTags(FieldItems(keys, m.fields), m.tags);
  }

  lemma ItemsAreGood(m: Message)
    requires WireSafe(m) && m.action != SharingContext
    ensures AllGood(ItemsOf(m))
  {
    var keys := SortedKeys(m.fields.Keys);
    forall i | 0 <= i < |ItemsOf(m)| ensures Good(ItemsOf(m)[i]) {
      if i < |keys| {
        assert keys[i] in keys;
      }
    }
  }

  // ---------- the first word ----------

  /** The first word of a printed message is its action, whatever its fields, tags and payload hold. */
  lemma FirstWordIsAction(m: Message)
    ensures FirstWord(TrimSpace(Format(m))) == Name(m.action)
  {
    hide Lettered;
    NameIsOneWord(m.action);
    var rest := FormatSplit(m);
    WordThenRest(Name(m.action), rest);
  }

  lemma FormatSplit(m: Message) returns (rest: string)
    ensures Format(m) == Name(m.action) + rest && (rest == "" || rest[0] == ' ')
  {
    FormatParts(m);
    if m.action == SharingContext {
      rest := if m.payload == "" then "" else " " + m.payload;
      assert m.payload != "" ==> Name(m.action) + " " + m.payload == Name(m.action) + rest;
    } else {
      rest := BodyText(ItemsOf(m));
      BodyTextStart(ItemsOf(m));
    }
  }

  lemma WordThenRest(word: string, rest: string)
    requires word != "" && forall i :: 0 <= i < |word| ==> !Space(word[i]) && word[i] !in BLANKS
    requires rest == "" || rest[0] == ' '
    ensures FirstWord(TrimSpace(word + rest)) == word
    ensures TrimSpace(word + rest) != ""
  {
    var s := word + rest;
    TrimSpaceRight(s);
    var t := TrimSpace(s);
    assert s[|word| - 1] == word[|word| - 1];
    assert |word| <= |t|;
    assert t[..|word|] == word;
    assert forall i :: 0 <= i < |word| ==> t[i] == word[i];
    assert |word| < |t| ==> t[|word|] == s[|word|] == ' ';
    FindUnique(t, BLANKS, |word|);
  }

  /** IsProtocolMessage holds exactly when the first word is an action name in capitals. */
  lemma ProtocolMessageIffFirstWord(raw: string)
    ensures IsProtocolMessage(raw) <==> exists a :: FirstWord(TrimSpace(raw)) == Name(a)
  {
    hide TrimSpace, Name, Lettered;
    var t := TrimSpace(raw);
    forall a ensures (Name(a) + " " <= t || Name(a) + "\t" <= t || Name(a) == t) <==> FirstWord(t) == Name(a) {
      NameIsOneWord(a);
      PrefixIffFirstWord(Name(a), t);
    }
  }

  lemma PrefixIffFirstWord(word: string, t: string)
    requires forall i :: 0 <= i < |word| ==> word[i] !in BLANKS
    ensures (word + " " <= t || word + "\t" <= t || word == t) <==> FirstWord(t) == word
  {
    if word + " " <= t || word + "\t" <= t {
      var n := |word|;
      assert t[..n + 1] == word + " " || t[..n + 1] == word + "\t";
      assert forall i :: 0 <= i < n ==> t[i] == t[..n + 1][i];
      assert t[n] == t[..n + 1][n];
      FindUnique(t, BLANKS, n);
      assert t[..n] == t[..n + 1][..n] == word;
    } else if word == t {
      FindUnique(t, BLANKS, |t|);
    }
    if FirstWord(t) == word && word != t {
      var n := Find(t, BLANKS);
      assert t[..n + 1] == word + [t[n]];
    }
  }

  /** Once the cheap check has passed, an unclosed quote is the only reason for Parse to fail. */
  lemma OnlyQuotesFail(raw: string)
    requires IsProtocolMessage(raw)
    ensures Parsed(raw).Ok? || Parsed(raw).error.UnclosedQuote?
    ensures forall a :: FirstWord(TrimSpace(raw)) == Name(a) && Parsed(raw).Ok? ==> Parsed(raw).value.action == a
  {
    hide Name, Lettered, TrimSpace;
    ProtocolMessageIffFirstWord(raw);
    var t := TrimSpace(raw);
    var a :| FirstWord(t) == Name(a);
    NameIsOneWord(a);
    assert t != "";
    assert ActionOf(ToUpper(FirstWord(t))) == Some(a) by { ActionOfName(a); }
    forall b | FirstWord(t) == Name(b) ensures a == b {
      NamesDiffer(a, b);
    }
    LexErrors(AfterFirstWord(t));
  }

  /** Of the lines Parse accepts, the cheap check admits exactly those whose action is written in capitals. */
  lemma AdmittedIffCapitals(raw: string)
    requires Parsed(raw).Ok?
    ensures IsProtocolMessage(raw) <==> FirstWord(TrimSpace(raw)) == Name(Parsed(raw).value.action)
  {
    hide Parsed, IsProtocolMessage, Name, TrimSpace, FirstWord;
    ProtocolMessageIffFirstWord(raw);
    if IsProtocolMessage(raw) {
      OnlyQuotesFail(raw);
    }
  }

  lemma {:induction false} LexErrors(s: string)
    ensures Lex(s).Ok? || Lex(s).error.UnclosedQuote?
    decreases |s|
  {
    if s != "" {
      match Next(s) {
        case Skip(n) => LexErrors(s[n..]);
        case Emit(_, n) => LexErrors(s[n..]);
        case Fail(_) =>
      }
    }
  }

  // ---------- everything the tokenizer yields is good ----------

  lemma NextIsGood(s: string)
    requires s != "" && Next(s).Emit?
    ensures Good(Next(s).item)
  {
    if s[0] == '#' {
      NoBlankFind(s[1..1 + Find(s[1..], BLANKS)]);
    } else {
      var n := Find(s, KEY_STOPS);
      FindUnique(s[..n], KEY_STOPS, n);
      NextValueIsGood(s[..n], s[n + 1..], n + 1);
    }
  }

  lemma NextValueIsGood(key: string, v: string, n: nat)
    requires GoodKey(key) && NextValue(key, v, n).Emit?
    ensures Good(NextValue(key, v, n).item)
  {
    if v != "" && v[0] == '"' {
      var q := Find(v[1..], QUOTES);
      assert forall i :: 0 <= i < q ==> v[1..1 + q][i] == v[1..][i];
      assert '"' !in v[1..1 + q];
    } else {
      var e := Find(v, BLANKS);
      assert forall i :: 0 <= i < e ==> v[..e][i] == v[i];
      assert !HasBlank(v[..e]);
    }
  }

  lemma {:induction false} LexIsGood(s: string)
    ensures Lex(s).Ok? ==> AllGood(Lex(s).value)
    decreases |s|
  {
    hide Good, Next;
    if s != "" {
      match Next(s) {
        case Skip(n) => LexIsGood(s[n..]);
        case Emit(it, n) => LexIsGood(s[n..]); NextIsGood(s);
        case Fail(_) =>
      }
    }
  }

  lemma {:induction false} FieldsAreGood(items: seq<Item>)
    requires AllGood(items)
    ensures forall k :: k in FieldsOf(items) ==> GoodKey(k) && GoodValue(FieldsOf(items)[k])
    ensures forall i :: 0 <= i < |TagsOf(items)| ==> GoodTag(TagsOf(items)[i])
  {
    hide GoodKey, GoodValue, GoodTag;
    if items != [] {
      FieldsAreGood(items[..|items| - 1]);
      assert Good(items[|items| - 1]);
    }
  }

  lemma ParsedIsWireSafe(raw: string)
    requires Parsed(raw).Ok?
    ensures WireSafe(Parsed(raw).value)
  {
    hide TrimSpace, Find, Good, GoodKey, GoodValue, GoodTag, Lex, Name, FieldsOf, TagsOf;
    var t := TrimSpace(raw);
    var body := AfterFirstWord(t);
    AfterFirstWordTrimmed(t);
    if Lex(body).Ok? {
      LexIsGood(body);
      FieldsAreGood(Lex(body).value);
    }
  }

  lemma TrimSpaceEmpty()
    ensures TrimSpace("") == ""
  {
  }

  lemma AfterFirstWordTrimmed(t: string)
    ensures TrimSpace(AfterFirstWord(t)) == AfterFirstWord(t)
  {
    hide TrimSpace, Trimmed, PlainSpaces, Find;
    var n := Find(t, BLANKS);
    if n < |t| {
      TrimSpaceEnds(t[n + 1..]);
      TrimSpaceEnds(TrimSpace(t[n + 1..]));
    } else {
      TrimSpaceEmpty();
    }
  }

  // ---------- round trip ----------

  lemma BodyEnds(items: seq<Item>)
    requires AllGood(items) && items != []
    ensures |BodyText(items)| > 1 && BodyText(items)[0] == ' '
    ensures BodyText(items)[1] !in BLANKS && BodyText(items)[|BodyText(items)| - 1] !in BLANKS
  {
    hide Good, ItemText, BodyText;
    var front, last := items[..|items| - 1], items[|items| - 1];
    assert [items[0]] + items[1..] == items == front + [last];
    BodyTextCons(items[0], items[1..]);
    BodyTextSnoc(front, last);
    assert Good(items[0]) && Good(last);
    ItemTextEnds(items[0]);
    ItemTextEnds(last);
    assert BodyText(items)[1] == ItemText(items[0])[0];
  }

  /** Parsing "NAME body" when the body has no white space at its ends. */
  lemma ParseNameAndBody(a: Action, body: string)
    requires body != "" && Trimmed(body)
    ensures Parsed(Name(a) + " " + body) == ParseBody(a, body)
  {
    hide *;
    NameIsOneWord(a);
    SplitNameAndBody(Name(a), body);
    ParsedByWords(Name(a) + " " + body, a);
  }

  lemma SplitNameAndBody(word: string, body: string)
    requires word != "" && forall i :: 0 <= i < |word| ==> !Space(word[i]) && word[i] !in BLANKS
    requires body != "" && Trimmed(body)
    ensures var s := word + " " + body; TrimSpace(s) == s && FirstWord(s) == word && AfterFirstWord(s) == body
  {
    var s := word + " " + body;
    hide Space, TrimSpace;
    assert s[0] == word[0] && s[|s| - 1] == body[|body| - 1];
    TrimSpaceEnds(s);
    TrimSpaceEnds(body);
    assert forall i :: 0 <= i < |word| ==> s[i] == word[i];
    FindUnique(s, BLANKS, |word|);
    assert s[|word| + 1..] == body && s[..|word|] == word;
  }

  lemma ParsedByWords(t: string, a: Action)
    requires t != "" && TrimSpace(t) == t && FirstWord(t) == Name(a) == ToUpper(Name(a))
    ensures Parsed(t) == ParseBody(a, AfterFirstWord(t))
  {
    ActionOfName(a);
  }

  lemma ParseNameAlone(a: Action)
    ensures Parsed(Name(a)) == ParseBody(a, "")
  {
    hide Name, Lettered, ParseBody, Parsed;
    NameIsOneWord(a);
    TrimSpaceEnds(Name(a));
    FindUnique(Name(a), BLANKS, |Name(a)|);
    ParsedByWords(Name(a), a);
  }

  lemma PlainTail(head: string, tail: string)
    requires PlainSpaces(head + tail)
    ensures PlainSpaces(tail)
  {
    forall i | 0 <= i < |tail| ensures Space(tail[i]) ==> tail[i] in BLANKS {
      assert (head + tail)[|head| + i] == tail[i];
    }
  }

  /** No white space but space and tab begins the first printed item or ends the last one, where trimming would remove it. */
  ghost predicate EndsStay(m: Message) {
    m.action == SharingContext || ItemsOf(m) == [] || Trimmed(PrintedItems(m))
  }

  /** The printed items without the space before the first one. */
  ghost function PrintedItems(m: Message): string
    requires ItemsOf(m) != []
  {
    BodyTextStart(ItemsOf(m));
    BodyText(ItemsOf(m))[1..]
  }

  lemma PlainEndsStay(m: Message)
    requires WireSafe(m) && m.action != SharingContext && PlainSpaces(Format(m))
    ensures EndsStay(m)
  {
    hide WireSafe, Name, AllGood, PlainSpaces;
    FormatParts(m);
    ItemsAreGood(m);
    var items := ItemsOf(m);
    if items != [] {
      BodyEnds(items);
      PlainTail(Name(m.action), BodyText(items));
      assert BodyText(items) == " " + PrintedItems(m);
      PlainEndsTrimmed(BodyText(items), PrintedItems(m));
    }
  }

  lemma SafeBodyReadsBack(m: Message)
    requires WireSafe(m) && m.action != SharingContext && EndsStay(m)
    ensures Parsed(Format(m)) == Ok(Bare(m))
  {
    hide WireSafe, Name, AllGood, Lex, FieldsOf, TagsOf, Find, TrimSpace, BodyText, ItemsOf, Parsed, Format;
    FormatParts(m);
    var items := ItemsOf(m);
    ItemsAreGood(m);
    ItemsCollect(m);
    LexReadsBody(items);
    SafePayload(m);
    BodyTextStart(items);
    if items == [] {
      assert Name(m.action) + "" == Name(m.action);
      ParseNameAlone(m.action);
    } else {
      BodyEnds(items);
      var body := PrintedItems(m);
      assert BodyText(items) == " " + body;
      LexSkipsSpace(body);
      assert Name(m.action) + " " + body == Format(m);
      ParseNameAndBody(m.action, body);
    }
  }

  lemma SafePayload(m: Message)
    requires WireSafe(m)
    ensures m.action != SharingContext ==> m.payload == ""
    ensures m.action == SharingContext ==> m.fields == map[] && m.tags == [] && TrimSpace(m.payload) == m.payload
  {
  }

  lemma PlainEndsTrimmed(s: string, body: string)
    requires s == " " + body && body != "" && PlainSpaces(s)
    requires body[0] !in BLANKS && body[|body| - 1] !in BLANKS
    ensures Trimmed(body)
  {
    assert s[1] == body[0] && s[|s| - 1] == body[|body| - 1];
  }

  lemma SafePayloadReadsBack(m: Message)
    requires WireSafe(m) && m.action == SharingContext
    ensures Parsed(Format(m)) == Ok(Bare(m))
  {
    hide Name, Find;
    FormatParts(m);
    if m.payload == "" {
      ParseNameAlone(m.action);
    } else {
      TrimSpaceEnds(m.payload);
      ParseNameAndBody(m.action, m.payload);
    }
  }

  /**
   * Round trip, exactly: with space and tab as the only white space, parsing the printed message gives the
   * message back if and only if its keys, values, tags and payload are ones the wire can carry.
   */
  lemma RoundTrip(m: Message)
    requires PlainSpaces(Format(m))
    ensures Parsed(Format(m)) == Ok(Bare(m)) <==> WireSafe(m)
  {
    hide WireSafe, EndsStay, PlainSpaces, Parsed, Format;
    if WireSafe(m) {
      if m.action == SharingContext {
        SafePayloadReadsBack(m);
      } else {
        PlainEndsStay(m);
        SafeBodyReadsBack(m);
      }
    }
    if Parsed(Format(m)) == Ok(Bare(m)) {
      ParsedIsWireSafe(Format(m));
      SafeIgnoresDispatcher(m);
    }
  }

  lemma SafeIgnoresDispatcher(m: Message)
    ensures WireSafe(Bare(m)) <==> WireSafe(m)
  {
  }

  /** Printing tells all messages apart that the wire can carry, even those that lose white space when parsed. */
  lemma FormatInjective(m1: Message, m2: Message)
    requires WireSafe(m1) && WireSafe(m2) && Format(m1) == Format(m2)
    ensures Bare(m1) == Bare(m2)
  {
    hide WireSafe, Format, Name, Lex, BodyText, ItemsOf, FieldsOf, TagsOf, TrimSpace, AllGood;
    FirstWordIsAction(m1);
    FirstWordIsAction(m2);
    NamesDiffer(m1.action, m2.action);
    FormatParts(m1);
    FormatParts(m2);
    SafePayload(m1);
    SafePayload(m2);
    var n := |Name(m1.action)|;
    if m1.action == SharingContext {
      assert m1.payload != "" ==> Format(m1)[n + 1..] == m1.payload;
      assert m2.payload != "" ==> Format(m2)[n + 1..] == m2.payload;
    } else {
      assert BodyText(ItemsOf(m1)) == Format(m1)[n..] == BodyText(ItemsOf(m2));
      ItemsAreGood(m1);
      ItemsAreGood(m2);
      LexReadsBody(ItemsOf(m1));
      LexReadsBody(ItemsOf(m2));
      ItemsCollect(m1);
      ItemsCollect(m2);
    }
  }

  // ---------- every text the tokenizer can meet ----------

  lemma BlankIsSkipped(c: char, s: string)
    requires c in BLANKS
    ensures Lex([c] + s) == Lex(s)
  {
    assert ([c] + s)[1..] == s;
  }

  /** A word without equals sign vanishes. */
  lemma BareWordIsSkipped(word: string, s: string)
    requires word != "" && word[0] != '#' && (forall i :: 0 <= i < |word| ==> word[i] !in KEY_STOPS)
    requires s == "" || s[0] in BLANKS
    ensures Lex(word + s) == Lex(s)
  {
    hide Find;
    FindUnique(word + s, KEY_STOPS, |word|);
    assert (word + s)[|word|..] == s;
  }

  lemma LoneHashIsSkipped(s: string)
    requires s == "" || s[0] in BLANKS
    ensures Lex("#" + s) == Lex(s)
  {
    hide Find;
    assert ("#" + s)[1..] == s;
    FindUnique(s, BLANKS, 0);
  }

  lemma TagIsRead(t: string, s: string)
    requires GoodTag(t) && (s == "" || s[0] in BLANKS)
    ensures Lex("#" + t + s) == Prepend(Tag(t), Lex(s))
  {
    hide Next, Find, GoodTag;
    NextReadsTag(t, s);
    assert ("#" + t + s)[1 + |t|..] == s;
  }

  /** A value without quotes reaches up to the next blank. */
  lemma PlainValueIsRead(k: string, v: string, s: string)
    requires GoodKey(k) && !HasBlank(v) && (v != "" ==> v[0] != '"')
    requires s == "" || s[0] in BLANKS
    ensures Lex(k + "=" + (v + s)) == Prepend(Field(k, v), Lex(s))
  {
    hide *;
    NextReadsKey(k, v + s);
    PlainValueNext(k, v, s);
    AfterParts(k + "=", v, s);
    EmittedFirst(k + "=" + (v + s), Field(k, v), |k| + 1 + |v|);
  }

  lemma PlainValueNext(k: string, v: string, s: string)
    requires !HasBlank(v) && (v != "" ==> v[0] != '"') && (s == "" || s[0] in BLANKS)
    ensures NextValue(k, v + s, |k| + 1) == Emit(Field(k, v), |k| + 1 + |v|)
  {
    hide Find;
    FindUnique(v + s, BLANKS, |v|);
    assert (v + s)[..|v|] == v;
  }

  /** A quoted value reaches up to the closing quote, and whatever follows need not be set off. */
  lemma QuotedValueIsRead(k: string, v: string, s: string)
    requires GoodKey(k) && '"' !in v
    ensures Lex(k + "=" + ("\"" + v + "\"" + s)) == Prepend(Field(k, v), Lex(s))
  {
    hide *;
    var rest := "\"" + v + "\"" + s;
    NextReadsKey(k, rest);
    QuotedValueNext(k, v, s);
    AfterParts(k + "=", "\"" + v + "\"", s);
    EmittedFirst(k + "=" + rest, Field(k, v), |k| + 1 + |v| + 2);
  }

  lemma AfterParts(a: string, b: string, s: string)
    ensures (a + (b + s))[|a| + |b|..] == s
  {
  }

  lemma EmittedFirst(s: string, it: Item, n: nat)
    requires s != "" && n <= |s| && Next(s) == Emit(it, n)
    ensures Lex(s) == Prepend(it, Lex(s[n..]))
  {
  }

  lemma QuotedValueNext(k: string, v: string, s: string)
    requires '"' !in v
    ensures NextValue(k, "\"" + v + "\"" + s, |k| + 1) == Emit(Field(k, v), |k| + 1 + |v| + 2)
  {
    hide Find;
    var rest := "\"" + v + "\"" + s;
    assert rest[1..] == v + ("\"" + s);
    FindUnique(rest[1..], QUOTES, |v|);
    assert rest[1..1 + |v|] == v;
  }

  /** A quote that is never closed is an error, which names the key. */
  lemma UnclosedQuoteFails(k: string, v: string)
    requires GoodKey(k) && '"' !in v
    ensures Lex(k + "=" + ("\"" + v)) == Err(UnclosedQuote(k))
  {
    hide Next, Find, GoodKey;
    NextReadsKey(k, "\"" + v);
    UnclosedNext(k, v);
    assert k + "=" + ("\"" + v) != "";
  }

  lemma UnclosedNext(k: string, v: string)
    requires '"' !in v
    ensures NextValue(k, "\"" + v, |k| + 1) == Fail(k)
  {
    hide Find;
    assert ("\"" + v)[1..] == v;
    FindUnique(v, QUOTES, |v|);
  }

  /** Of several fields with one key the last one counts. */
  lemma {:induction false} LastFieldCounts(items: seq<Item>, k: string, i: nat)
    requires i < |items| && items[i].Field? && items[i].key == k
    requires forall j :: i < j < |items| && items[j].Field? ==> items[j].key != k
    ensures k in FieldsOf(items) && FieldsOf(items)[k] == items[i].value
  {
    if i < |items| - 1 {
      LastFieldCounts(items[..|items| - 1], k, i);
    }
  }

  lemma {:induction false} NoFieldNoKey(items: seq<Item>, k: string)
    requires forall j :: 0 <= j < |items| && items[j].Field? ==> items[j].key != k
    ensures k !in FieldsOf(items)
  {
    if items != [] {
      NoFieldNoKey(items[..|items| - 1], k);
    }
  }

  // ---------- small letters ----------

  /** Parse takes any spelling of an action's name, and the cheap check drops all but the one in capitals. */
  lemma SpellingIsDropped(a: Action, word: string, body: string)
    requires ToUpper(word) == Name(a) && forall i :: 0 <= i < |word| ==> !Space(word[i]) && word[i] !in BLANKS
    requires body != "" && Trimmed(body) && ParseBody(a, body).Ok?
    ensures Parsed(word + " " + body) == ParseBody(a, body)
    ensures IsProtocolMessage(word + " " + body) <==> word == Name(a)
  {
    NameIsOneWord(a);
    hide Name, Lettered, IsProtocolMessage, ParseBody, TrimSpace, FirstWord, AfterFirstWord, ToUpper, Space, Trimmed;
    var raw := word + " " + body;
    SplitNameAndBody(word, body);
    ActionOfName(a);
    ParsedAction(a, body);
    AdmittedIffCapitals(raw);
  }

  lemma ParsedAction(a: Action, body: string)
    requires ParseBody(a, body).Ok?
    ensures ParseBody(a, body).value.action == a
  {
  }

  /** For one, "started task=a". */
  lemma SmallLettersAreDropped()
    ensures Parsed("started task=a") == Ok(NewMessage(Started, map["task" := "a"], []))
    ensures !IsProtocolMessage("started task=a")
  {
    hide *;
    Spelled();
    ShortItem();
    LoneFieldIsRead("task", "a");
    Uppercase();
    SpellingIsDropped(Started, "started", "task=a");
  }

  lemma Spelled()
    ensures "started" + " " + "task=a" == "started task=a" && "task" + "=" + "a" == "task=a"
  {
  }

  lemma ShortItem()
    ensures GoodKey("task") && GoodValue("a") && !HasBlank("a")
  {
    hide Find;
    FindUnique("task", KEY_STOPS, 4);
  }

  lemma Uppercase()
    ensures ToUpper("started") == Name(Started) != "started" && Trimmed("task=a")
    ensures forall i :: 0 <= i < |"started"| ==> !Space("started"[i]) && "started"[i] !in BLANKS
    ensures ParseBody(Started, "task=a") == match Lex("task=a")
      case Ok(items) => Ok(NewMessage(Started, FieldsOf(items), TagsOf(items)))
      case Err(e) => Err(e)
  {
    hide Lex, FieldsOf, TagsOf;
  }

  lemma LoneFieldIsRead(k: string, v: string)
    requires GoodKey(k) && GoodValue(v) && !HasBlank(v)
    ensures Lex(k + "=" + v) == Ok([Field(k, v)])
    ensures FieldsOf([Field(k, v)]) == map[k := v] && TagsOf([Field(k, v)]) == []
  {
    hide GoodKey, GoodValue, HasBlank, Lex, Find;
    var it := Field(k, v);
    LexReadsBody([it]);
    assert [] + [it] == [it];
    BodyTextSnoc([], it);
    assert BodyText([it]) == " " + (k + "=" + v);
    LexSkipsSpace(k + "=" + v);
    FieldsAndTags([], it);
  }

  // ---------- normal form ----------

  predicate PlainItem(it: Item) {
    match it
    case Field(k, v) => PlainSpaces(k) && PlainSpaces(v)
    case Tag(t) => PlainSpaces(t)
  }

  predicate AllPlain(items: seq<Item>) {
    forall i :: 0 <= i < |items| ==> PlainItem(items[i])
  }

  lemma PlainSlice(s: string, i: nat, j: nat)
    requires i <= j <= |s| && PlainSpaces(s)
    ensures PlainSpaces(s[i..j])
  {
  }

  lemma PlainDrop(s: string, i: nat)
    requires i <= |s| && PlainSpaces(s)
    ensures PlainSpaces(s[i..])
  {
  }

  lemma NextIsPlain(s: string)
    requires s != "" && PlainSpaces(s)
    ensures Next(s).Emit? ==> PlainItem(Next(s).item)
    ensures !Next(s).Fail? ==> PlainSpaces(s[Next(s).n..])
  {
    hide Find, PlainSpaces;
    if !Next(s).Fail? {
      PlainDrop(s, Next(s).n);
    }
    if s[0] !in BLANKS && s[0] == '#' {
      PlainSlice(s, 1, 1 + Find(s[1..], BLANKS));
    } else if s[0] !in BLANKS {
      var n := Find(s, KEY_STOPS);
      PlainSlice(s, 0, n);
      if n < |s| {
        PlainDrop(s, n + 1);
        var v := s[n + 1..];
        if v != "" && v[0] == '"' {
          PlainSlice(v, 1, 1 + Find(v[1..], QUOTES));
        } else {
          PlainSlice(v, 0, Find(v, BLANKS));
        }
      }
    }
  }

  lemma {:induction false} LexIsPlain(s: string)
    requires PlainSpaces(s)
    ensures Lex(s).Ok? ==> AllPlain(Lex(s).value)
    decreases |s|
  {
    hide PlainItem, Next, PlainSpaces;
    if s != "" {
      NextIsPlain(s);
      match Next(s) {
        case Skip(n) => LexIsPlain(s[n..]);
        case Emit(it, n) => LexIsPlain(s[n..]);
        case Fail(_) =>
      }
    }
  }

  lemma {:induction false} FieldsArePlain(items: seq<Item>)
    requires AllPlain(items)
    ensures forall k :: k in FieldsOf(items) ==> PlainSpaces(k) && PlainSpaces(FieldsOf(items)[k])
    ensures forall i :: 0 <= i < |TagsOf(items)| ==> PlainSpaces(TagsOf(items)[i])
  {
    hide PlainSpaces;
    if items != [] {
      FieldsArePlain(items[..|items| - 1]);
      assert PlainItem(items[|items| - 1]);
    }
  }

  lemma PlainConcat(a: string, b: string)
    requires PlainSpaces(a) && PlainSpaces(b)
    ensures PlainSpaces(a + b)
  {
  }

  lemma PlainItemText(it: Item)
    requires PlainItem(it)
    ensures PlainSpaces(" " + ItemText(it))
  {
    hide PlainSpaces;
    PlainMarks();
    match it {
      case Tag(t) =>
        PlainConcat(" #", t);
        assert " " + ItemText(it) == " #" + t;
      case Field(k, v) =>
        PlainConcat(" ", k);
        if HasBlank(v) {
          PlainConcat(" " + k, "=\"");
          PlainConcat(" " + k + "=\"", v);
          PlainConcat(" " + k + "=\"" + v, "\"");
          assert " " + ItemText(it) == " " + k + "=\"" + v + "\"";
        } else {
          PlainConcat(" " + k, "=");
          PlainConcat(" " + k + "=", v);
          assert " " + ItemText(it) == " " + k + "=" + v;
        }
    }
  }

  lemma PlainMarks()
    ensures PlainSpaces(" ") && PlainSpaces(" #") && PlainSpaces("=") && PlainSpaces("=\"") && PlainSpaces("\"") && PlainSpaces("")
  {
  }

  lemma {:induction false} PlainBodyText(items: seq<Item>)
    requires AllPlain(items)
    ensures PlainSpaces(BodyText(items))
  {
    hide PlainSpaces, PlainItem, ItemText;
    if items == [] {
      PlainMarks();
    } else {
      var front, last := items[..|items| - 1], items[|items| - 1];
      PlainBodyText(front);
      PlainItemText(last);
      PlainConcat(BodyText(front), " " + ItemText(last));
      assert BodyText(items) == BodyText(front) + (" " + ItemText(last));
    }
  }

  lemma PlainName(a: Action)
    ensures PlainSpaces(Name(a))
  {
    hide Name;
    NameIsOneWord(a);
  }

  lemma PlainFields(m: Message)
    requires forall k :: k in m.fields ==> PlainSpaces(k) && PlainSpaces(m.fields[k])
    requires forall i :: 0 <= i < |m.tags| ==> PlainSpaces(m.tags[i])
    ensures AllPlain(ItemsOf(m))
  {
    hide PlainSpaces, Ascending;
    var keys := SortedKeys(m.fields.Keys);
    forall i | 0 <= i < |ItemsOf(m)| ensures PlainItem(ItemsOf(m)[i]) {
      if i < |keys| {
        assert keys[i] in keys;
      }
    }
  }

  lemma AfterFirstWordPlain(raw: string)
    requires PlainSpaces(raw)
    ensures PlainSpaces(AfterFirstWord(TrimSpace(raw)))
  {
    hide TrimSpace, PlainSpaces, Find, Trimmed, Space;
    TrimSpaceEnds(raw);
    var t := TrimSpace(raw);
    var n := Find(t, BLANKS);
    if n < |t| {
      PlainSlice(t, n + 1, |t|);
      assert t[n + 1..|t|] == t[n + 1..];
      TrimSpaceEnds(t[n + 1..]);
    } else {
      PlainSlice(t, 0, 0);
      assert t[0..0] == "";
    }
  }

  lemma PrintedStaysPlain(raw: string)
    requires PlainSpaces(raw) && Parsed(raw).Ok?
    ensures PlainSpaces(Format(Parsed(raw).value))
  {
    hide PlainSpaces, Name, Lex, FieldsOf, TagsOf, TrimSpace, Find, AllPlain, SortedKeys;
    var m := Parsed(raw).value;
    var body := AfterFirstWord(TrimSpace(raw));
    AfterFirstWordPlain(raw);
    PlainName(m.action);
    FormatParts(m);
    PlainMarks();
    if m.action == SharingContext {
      PlainConcat(Name(m.action), " ");
      PlainConcat(Name(m.action) + " ", m.payload);
    } else {
      LexIsPlain(body);
      FieldsArePlain(Lex(body).value);
      PlainFields(m);
      PlainBodyText(ItemsOf(m));
      PlainConcat(Name(m.action), BodyText(ItemsOf(m)));
    }
  }

  /** Normal form: printing what was parsed and parsing again changes nothing. */
  lemma NormalForm(raw: string)
    requires PlainSpaces(raw) && Parsed(raw).Ok?
    ensures Parsed(Format(Parsed(raw).value)) == Parsed(raw)
  {
    hide PlainSpaces, Format;
    PrintedStaysPlain(raw);
    ParsedIsWireSafe(raw);
    ParsedIsBare(raw);
    hide *;
    RoundTrip(Parsed(raw).value);
  }

  lemma ParsedIsBare(raw: string)
    requires Parsed(raw).Ok?
    ensures Bare(Parsed(raw).value) == Parsed(raw).value
  {
  }
}
