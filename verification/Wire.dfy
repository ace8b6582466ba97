/** The wire format of pkg/protocol: Parse, tokenize, Message.String and IsProtocolMessage. */
module Wire {
  import opened Protocol
  import opened Text

  datatype ParseError = EmptyMessage | UnknownAction(text: string) | UnclosedQuote(key: string)

  function Name(a: Action): string {
    match a
    case Started => "STARTED"
    case Completed => "COMPLETED"
    case Blocked => "BLOCKED"
    case Acknowledged => "ACKNOWLEDGED"
    case HelpNeeded => "HELP-NEEDED"
    case Context => "CONTEXT"
    case RequestContext => "REQUEST-CONTEXT"
    case SharingContext => "SHARING-CONTEXT"
    case Discover => "DISCOVER"
    case Capabilities => "CAPABILITIES"
    case Offer => "OFFER"
    case Claim => "CLAIM"
    case Assign => "ASSIGN"
    case Accept => "ACCEPT"
    case Decline => "DECLINE"
    case Yield => "YIELD"
    case Checkpoint => "CHECKPOINT"
    case Handoff => "HANDOFF"
    case ReviewRequest => "REVIEW-REQUEST"
    case ReviewComplete => "REVIEW-COMPLETE"
    case GateCheck => "GATE-CHECK"
    case Vote => "VOTE"
    case Escalate => "ESCALATE"
    case CostReport => "COST-REPORT"
  }

  lemma NamesDiffer(a: Action, b: Action)
    requires Name(a) == Name(b)
    ensures a == b
  {
    var n := |Name(a)|;
    assert n == |Name(b)| && Name(a)[0] == Name(b)[0] && Name(a)[1] == Name(b)[1] && Name(a)[n - 2] == Name(b)[n - 2];
  }

  predicate Lettered(s: string) {
    s != "" && 'A' <= s[0] <= 'Z' && forall i :: 0 <= i < |s| ==> 'A' <= s[i] <= 'Z' || s[i] == '-'
  }

  lemma NameShape1(a: Action)
    requires a.Started? || a.Completed? || a.Blocked? || a.Acknowledged? || a.HelpNeeded? || a.Context?
    ensures Lettered(Name(a))
  {
  }

  lemma NameShape2(a: Action)
    requires a.RequestContext? || a.SharingContext? || a.Discover? || a.Capabilities? || a.Offer? || a.Claim?
    ensures Lettered(Name(a))
  {
  }

  lemma NameShape3(a: Action)
    requires a.Assign? || a.Accept? || a.Decline? || a.Yield? || a.Checkpoint? || a.Handoff?
    ensures Lettered(Name(a))
  {
  }

  lemma NameShape4(a: Action)
    requires a.ReviewRequest? || a.ReviewComplete? || a.GateCheck? || a.Vote? || a.Escalate? || a.CostReport?
    ensures Lettered(Name(a))
  {
  }

  lemma NameLettered(a: Action)
    ensures Lettered(Name(a))
  {
    hide Lettered, Name;
    if a.Started? || a.Completed? || a.Blocked? || a.Acknowledged? || a.HelpNeeded? || a.Context? {
      NameShape1(a);
    } else if a.RequestContext? || a.SharingContext? || a.Discover? || a.Capabilities? || a.Offer? || a.Claim? {
      NameShape2(a);
    } else if a.Assign? || a.Accept? || a.Decline? || a.Yield? || a.Checkpoint? || a.Handoff? {
      NameShape3(a);
    } else {
      NameShape4(a);
    }
  }

  /** Action names are upper case already and hold no white space. */
  lemma NameIsOneWord(a: Action)
    ensures |Name(a)| > 0
    ensures forall i :: 0 <= i < |Name(a)| ==> !Space(Name(a)[i]) && Name(a)[i] !in BLANKS && 'A' <= Name(a)[0] <= 'Z'
    ensures ToUpper(Name(a)) == Name(a)
  {
    NameLettered(a);
    hide Name;
  }

  /** The lookup in validActions. */
  ghost function ActionOf(text: string): (r: Option<Action>)
    ensures r.Some? ==> Name(r.value) == text
    ensures r.None? ==> forall a :: Name(a) != text
  {
    if exists a :: Name(a) == text then
      var a :| Name(a) == text;
      Some(a)
    else
      None
  }

  const ALL_ACTIONS: seq<Action> := [
    Started, Completed, Blocked, Acknowledged, HelpNeeded, Context, RequestContext, SharingContext,
    Discover, Capabilities, Offer, Claim, Assign, Accept, Decline, Yield,
    Checkpoint, Handoff, ReviewRequest, ReviewComplete, GateCheck, Vote, Escalate, CostReport]

  lemma AllActionsListed(a: Action) returns (k: nat)
    ensures k < |ALL_ACTIONS| && ALL_ACTIONS[k] == a
  {
    k := match a
      case Started => 0 case Completed => 1 case Blocked => 2 case Acknowledged => 3 case HelpNeeded => 4
      case Context => 5 case RequestContext => 6 case SharingContext => 7 case Discover => 8 case Capabilities => 9
      case Offer => 10 case Claim => 11 case Assign => 12 case Accept => 13 case Decline => 14 case Yield => 15
      case Checkpoint => 16 case Handoff => 17 case ReviewRequest => 18 case ReviewComplete => 19
      case GateCheck => 20 case Vote => 21 case Escalate => 22 case CostReport => 23;
  }

  lemma ActionOfName(a: Action)
    ensures ActionOf(Name(a)) == Some(a)
  {
    NamesDiffer(ActionOf(Name(a)).value, a);
  }

  /** Action.Valid, as a search through the table. */
  method LookupAction(text: string) returns (r: Option<Action>)
    ensures r == ActionOf(text)
  {
    hide Name, ALL_ACTIONS;
    for i := 0 to |ALL_ACTIONS|
      invariant forall k :: 0 <= k < i ==> Name(ALL_ACTIONS[k]) != text
    {
      if Name(ALL_ACTIONS[i]) == text {
        ActionOfName(ALL_ACTIONS[i]);
        return Some(ALL_ACTIONS[i]);
      }
    }
    forall a ensures Name(a) != text {
      var k := AllActionsListed(a);
    }
    return None;
  }

  // ---------- items and their text ----------

  /** One element of a message body. */
  datatype Item = Field(key: string, value: string) | Tag(tag: string)

  predicate HasBlank(s: string) {
    exists i :: 0 <= i < |s| && s[i] in BLANKS
  }

  function ItemText(it: Item): string {
    match it
    case Field(k, v) => if HasBlank(v) then k + "=\"" + v + "\"" else k + "=" + v
    case Tag(t) => "#" + t
  }

  function BodyText(items: seq<Item>): string {
    if items == [] then "" else BodyText(items[..|items| - 1]) + " " + ItemText(items[|items| - 1])
  }

  function FieldItems(keys: seq<string>, fields: map<string, string>): (r: seq<Item>)
    requires forall k :: k in keys ==> k in fields
    ensures |r| == |keys| && forall i :: 0 <= i < |keys| ==> r[i] == Field(keys[i], fields[keys[i]])
  {
    seq(|keys|, i requires 0 <= i < |keys| => Field(keys[i], fields[keys[i]]))
  }

  function TagItems(tags: seq<string>): (r: seq<Item>)
    ensures |r| == |tags| && forall i :: 0 <= i < |tags| ==> r[i] == Tag(tags[i])
  {
    seq(|tags|, i requires 0 <= i < |tags| => Tag(tags[i]))
  }

  ghost function ItemsOf(m: Message): seq<Item> {
    FieldItems(SortedKeys(m.fields.Keys), m.fields) + TagItems(m.tags)
  }

  /** What Message.String returns. */
  ghost function Format(m: Message): string {
    if m.action == SharingContext then
      Name(m.action) + (if m.payload != "" then " " + m.payload else "")
    else
      Name(m.action) + BodyText(ItemsOf(m))
  }

  // ---------- the tokenizer ----------

  const KEY_STOPS := {'=', ' ', '\t'}
  const QUOTES := {'"'}

  /** One round of the tokenizer's loop: pass over n characters, perhaps with an item, or give up. */
  datatype Round = Skip(n: nat) | Emit(item: Item, n: nat) | Fail(key: string)

  function Next(s: string): (r: Round)
    requires s != ""
    ensures !r.Fail? ==> 0 < r.n <= |s|
  {
    if s[0] in BLANKS then
      Skip(1)
    else if s[0] == '#' then
      var n := Find(s[1..], BLANKS);
      if n > 0 then Emit(Tag(s[1..1 + n]), 1 + n) else Skip(1)
    else
      var n := Find(s, KEY_STOPS);
      if n == |s| || s[n] != '=' then
        Skip(n)
      else
        NextValue(s[..n], s[n + 1..], n + 1)
  }

  /** The value that follows a key and its '=', of which n characters have been passed. */
  function NextValue(key: string, v: string, n: nat): (r: Round)
    ensures !r.Fail? ==> n <= r.n <= n + |v|
  {
    if v != "" && v[0] == '"' then
      var q := Find(v[1..], QUOTES);
      if q == |v| - 1 then Fail(key) else Emit(Field(key, v[1..1 + q]), n + q + 2)
    else
      var e := Find(v, BLANKS);
      Emit(Field(key, v[..e]), n + e)
  }

  function Prepend(it: Item, r: Result<seq<Item>, ParseError>): Result<seq<Item>, ParseError> {
    match r
    case Ok(items) => Ok([it] + items)
    case Err(e) => Err(e)
  }

  function Lex(s: string): Result<seq<Item>, ParseError>
    decreases |s|
  {
    if s == "" then Ok([])
    else match Next(s)
      case Skip(n) => Lex(s[n..])
      case Emit(it, n) => Prepend(it, Lex(s[n..]))
      case Fail(key) => Err(UnclosedQuote(key))
  }

  /** Later fields with the same key win. */
  function FieldsOf(items: seq<Item>): map<string, string> {
    if items == [] then map[]
    else match items[|items| - 1]
      case Field(k, v) => FieldsOf(items[..|items| - 1])[k := v]
      case Tag(_) => FieldsOf(items[..|items| - 1])
  }

  function TagsOf(items: seq<Item>): seq<string> {
    if items == [] then []
    else match items[|items| - 1]
      case Field(_, _) => TagsOf(items[..|items| - 1])
      case Tag(t) => TagsOf(items[..|items| - 1]) + [t]
  }

  function FirstWord(t: string): string {
    t[..Find(t, BLANKS)]
  }

  function AfterFirstWord(t: string): string {
    var n := Find(t, BLANKS);
    if n == |t| then "" else TrimSpace(t[n + 1..])
  }

  ghost function ParseBody(action: Action, body: string): Result<Message, ParseError> {
    if action == SharingContext then
      Ok(NewMessage(action, map[], []).(payload := body))
    else match Lex(body)
      case Ok(items) => Ok(NewMessage(action, FieldsOf(items), TagsOf(items)))
      case Err(e) => Err(e)
  }

  /** What Parse returns. */
  ghost function Parsed(raw: string): Result<Message, ParseError> {
    var t := TrimSpace(raw);
    if t == "" then Err(EmptyMessage)
    else match ActionOf(ToUpper(FirstWord(t)))
      case None => Err(UnknownAction(FirstWord(t)))
      case Some(a) => ParseBody(a, AfterFirstWord(t))
  }

  /** The cheap check before parsing: an action name followed by a blank, or nothing but an action name. */
  ghost predicate IsProtocolMessage(raw: string) {
    var t := TrimSpace(raw);
    exists a :: Name(a) + " " <= t || Name(a) + "\t" <= t || Name(a) == t
  }

  // ---------- the methods ----------

  /** The index-driven loop of tokenize. */
  method Tokenize(body: string) returns (r: Result<(map<string, string>, seq<string>), ParseError>)
    ensures r == match Lex(body)
                 case Ok(items) => Ok((FieldsOf(items), TagsOf(items)))
                 case Err(e) => Err(e)
  {
    hide *;
    var fields: map<string, string> := map[];
    var tags: seq<string> := [];
    ghost var items: seq<Item> := [];
    var i := 0;
    TokenizeStarts(body);
    while i < |body|
      invariant 0 <= i <= |body|
      invariant Progress(body, i, items)
      invariant fields == FieldsOf(items) && tags == TagsOf(items)
    {
      TokenizeRound(body, i, items);
      if body[i] == ' ' || body[i] == '\t' {
        BlankRound(body, i);
        i := i + 1;
        continue;
      }
      if body[i] == '#' {
        ghost var at := i;
        i := i + 1;
        var start := i;
        i := Advance(body, i, BLANKS);
        TagRound(body, at, i);
        if i > start {
          FieldsAndTags(items, Tag(body[start..i]));
          tags := tags + [body[start..i]];
          items := items + [Tag(body[start..i])];
        }
        continue;
      }
      var start := i;
      i := Advance(body, i, KEY_STOPS);
      KeyRound(body, start, i);
      if i >= |body| || body[i] != '=' {
        continue;
      }
      var key := body[start..i];
      i := i + 1;
      var at := i;
      if i < |body| && body[i] == '"' {
        i := i + 1;
        var from := i;
        i := Advance(body, i, QUOTES);
        QuotedRound(body, key, at, i, at - start);
        assert at - start + (i + 1 - at) == i + 1 - start;
        if i >= |body| {
          return Err(UnclosedQuote(key));
        }
        FieldsAndTags(items, Field(key, body[from..i]));
        fields := fields[key := body[from..i]];
        items := items + [Field(key, body[from..i])];
        i := i + 1;
      } else {
        i := Advance(body, i, BLANKS);
        PlainRound(body, key, at, i, at - start);
        FieldsAndTags(items, Field(key, body[at..i]));
        fields := fields[key := body[at..i]];
        items := items + [Field(key, body[at..i])];
      }
    }
    TokenizeEnds(body, i, items);
    return Ok((fields, tags));
  }

  /** The inner loops of tokenize: move on to the next stop character. */
  method Advance(body: string, from: nat, stops: set<char>) returns (i: nat)
    requires from <= |body|
    ensures from <= i <= |body| && i - from == Find(body[from..], stops)
  {
    i := from;
    while i < |body| && body[i] !in stops
      invariant from <= i <= |body|
      invariant forall k :: from <= k < i ==> body[k] !in stops
    {
      i := i + 1;
    }
    FindUnique(body[from..], stops, i - from);
  }

  /** What the tokenizer has found in body[..i] completes to the whole result. */
  ghost predicate Progress(body: string, i: nat, items: seq<Item>) {
    i <= |body| &&
    Lex(body) == match Lex(body[i..])
                 case Ok(rest) => Ok(items + rest)
                 case Err(e) => Err(e)
  }

  lemma TokenizeStarts(body: string)
    ensures Progress(body, 0, []) && FieldsOf([]) == map[] && TagsOf([]) == []
  {
    assert body[0..] == body;
    assert forall rest: seq<Item> :: [] + rest == rest;
  }

  lemma TokenizeEnds(body: string, i: nat, items: seq<Item>)
    requires i == |body| && Progress(body, i, items)
    ensures Lex(body) == Ok(items)
  {
    assert items + [] == items;
  }

  lemma FieldsAndTags(items: seq<Item>, it: Item)
    ensures it.Field? ==> FieldsOf(items + [it]) == FieldsOf(items)[it.key := it.value] && TagsOf(items + [it]) == TagsOf(items)
    ensures it.Tag? ==> FieldsOf(items + [it]) == FieldsOf(items) && TagsOf(items + [it]) == TagsOf(items) + [it.tag]
  {
    assert (items + [it])[..|items|] == items;
  }

  lemma TokenizeRound(body: string, i: nat, items: seq<Item>)
    requires i < |body| && Progress(body, i, items)
    ensures match Next(body[i..])
            case Skip(n) => 0 < n <= |body| - i && Progress(body, i + n, items)
            case Emit(it, n) => 0 < n <= |body| - i && Progress(body, i + n, items + [it])
            case Fail(key) => Lex(body) == Err(UnclosedQuote(key))
  {
    var r := Next(body[i..]);
    if !r.Fail? {
      assert body[i..][r.n..] == body[i + r.n..];
      if r.Emit? && Lex(body[i + r.n..]).Ok? {
        assert items + ([r.item] + Lex(body[i + r.n..]).value) == items + [r.item] + Lex(body[i + r.n..]).value;
      }
    }
  }

  lemma BlankRound(body: string, i: nat)
    requires i < |body| && (body[i] == ' ' || body[i] == '\t')
    ensures Next(body[i..]) == Skip(1)
  {
  }

  lemma TagRound(body: string, at: nat, i: nat)
    requires at < i <= |body| && body[at] == '#' && i - (at + 1) == Find(body[at + 1..], BLANKS)
    ensures Next(body[at..]) == if i > at + 1 then Emit(Tag(body[at + 1..i]), i - at) else Skip(1)
  {
    assert body[at..][1..] == body[at + 1..];
    assert body[at..][1..i - at] == body[at + 1..i];
  }

  lemma KeyRound(body: string, start: nat, i: nat)
    requires start < |body| && start <= i <= |body| && body[start] != ' ' && body[start] != '\t' && body[start] != '#'
    requires i - start == Find(body[start..], KEY_STOPS)
    ensures Next(body[start..]) ==
      if i == |body| || body[i] != '=' then Skip(i - start)
      else NextValue(body[start..i], body[i + 1..], i + 1 - start)
  {
    assert body[start..][..i - start] == body[start..i];
    assert i < |body| ==> body[start..][i - start + 1..] == body[i + 1..];
  }

  lemma QuotedRound(body: string, key: string, at: nat, i: nat, n: nat)
    requires at < i <= |body| && body[at] == '"' && i - (at + 1) == Find(body[at + 1..], QUOTES)
    ensures NextValue(key, body[at..], n) ==
      if i == |body| then Fail(key) else Emit(Field(key, body[at + 1..i]), n + (i + 1 - at))
  {
    assert body[at..][1..] == body[at + 1..];
    assert body[at..][1..i - at] == body[at + 1..i];
  }

  lemma PlainRound(body: string, key: string, at: nat, i: nat, n: nat)
    requires at <= i <= |body| && (at < |body| ==> body[at] != '"') && i - at == Find(body[at..], BLANKS)
    ensures NextValue(key, body[at..], n) == Emit(Field(key, body[at..i]), n + (i - at))
  {
    assert body[at..][..i - at] == body[at..i];
  }

  /** IsProtocolMessage: the loop over actionPrefixes. */
  method CheckProtocolMessage(raw: string) returns (r: bool)
    ensures r <==> IsProtocolMessage(raw)
  {
    hide Name, ALL_ACTIONS, TrimSpace;
    var t := TrimSpace(raw);
    for i := 0 to |ALL_ACTIONS|
      invariant forall k :: 0 <= k < i ==>
        var n := Name(ALL_ACTIONS[k]); !(n + " " <= t) && !(n + "\t" <= t) && n != t
    {
      var n := Name(ALL_ACTIONS[i]);
      if n + " " <= t || n + "\t" <= t || n == t {
        return true;
      }
    }
    forall a ensures !(Name(a) + " " <= t) && !(Name(a) + "\t" <= t) && Name(a) != t {
      var k := AllActionsListed(a);
    }
    return false;
  }

  method Parse(raw: string) returns (r: Result<Message, ParseError>)
    ensures r == Parsed(raw)
  {
    hide Lex, Name, FieldsOf, TagsOf;
    var t := TrimSpace(raw);
    if t == "" {
      return Err(EmptyMessage);
    }
    var first, rest := FirstWord(t), AfterFirstWord(t);
    var action := LookupAction(ToUpper(first));
    if action.None? {
      return Err(UnknownAction(first));
    }
    if action.value == SharingContext {
      return Ok(NewMessage(action.value, map[], []).(payload := rest));
    }
    var body := Tokenize(rest);
    if body.Err? {
      return Err(body.error);
    }
    return Ok(NewMessage(action.value, body.value.0, body.value.1));
  }

  /** sort.Strings on the keys of a map. */
  method SortStrings(keys: seq<string>) returns (sorted: seq<string>)
    requires forall i, j :: 0 <= i < j < |keys| ==> keys[i] != keys[j]
    ensures Ascending(sorted) && forall k :: k in sorted <==> k in keys
  {
    sorted := [];
    for i := 0 to |keys|
      invariant Ascending(sorted)
      invariant forall k :: k in sorted <==> k in keys[..i]
    {
      InsertKeepsAscending(sorted, keys[i]);
      assert forall k :: k in keys[..i + 1] <==> k in keys[..i] || k == keys[i];
      sorted := Insert(sorted, keys[i]);
    }
  }

  /** The keys of a map in arbitrary order, as Go's range yields them. */
  method CollectKeys(fields: map<string, string>) returns (keys: seq<string>)
    ensures forall i, j :: 0 <= i < j < |keys| ==> keys[i] != keys[j]
    ensures forall k :: k in keys <==> k in fields
  {
    keys := [];
    var left := fields.Keys;
    while left != {}
      invariant left <= fields.Keys
      invariant forall i, j :: 0 <= i < j < |keys| ==> keys[i] != keys[j]
      invariant forall k :: k in keys <==> k in fields && k !in left
      decreases left
    {
      var k :| k in left;
      left := left - {k};
      keys := keys + [k];
    }
  }

  /** Message.String: a builder filled by two loops over the sorted keys and the tags. */
  method String(m: Message) returns (b: string)
    ensures b == Format(m)
  {
    hide *;
    FormatParts(m);
    b := Name(m.action);
    if m.action == SharingContext {
      if m.payload != "" {
        b := b + " " + m.payload;
      }
      return;
    }
    var keys := CollectKeys(m.fields);
    keys := SortStrings(keys);
    KeysAreSorted(m, keys);
    ghost var items := ItemsOf(m);
    BodyTextNone(items, b);
    for i := 0 to |keys|
      invariant b == Name(m.action) + BodyText(items[..i])
    {
      BodyTextNext(items, i);
      var field := FieldText(keys[i], m.fields[keys[i]]);
      b := Join(b, Name(m.action), BodyText(items[..i]), field);
    }
    for i := 0 to |m.tags|
      invariant b == Name(m.action) + BodyText(items[..|keys| + i])
    {
      BodyTextNext(items, |keys| + i);
      TagText(m.tags[i]);
      b := Join(b, Name(m.action), BodyText(items[..|keys| + i]), "#" + m.tags[i]);
    }
    assert items[..|keys| + |m.tags|] == items;
  }

  /** Writes a space and one more item to the builder b, which holds head and body. */
  method Join(b: string, ghost head: string, ghost body: string, item: string) returns (r: string)
    requires b == head + body
    ensures r == head + (body + " " + item)
  {
    r := b + " " + item;
    assert head + body + " " + item == head + (body + " " + item);
  }

  /** The text of one field; only values that hold a space or tab are quoted. */
  method FieldText(k: string, v: string) returns (r: string)
    ensures r == ItemText(Field(k, v))
    ensures r == k + "=" + if ' ' in v || '\t' in v then "\"" + v + "\"" else v
  {
    r := k + "=";
    if HasBlank(v) {
      r := r + "\"";
      r := r + v + "\"";
      assert r == k + "=\"" + v + "\"";
    } else {
      r := r + v;
    }
  }

  lemma FormatParts(m: Message)
    ensures m.action == SharingContext && m.payload == "" ==> Format(m) == Name(m.action)
    ensures m.action == SharingContext && m.payload != "" ==> Format(m) == Name(m.action) + " " + m.payload
    ensures m.action != SharingContext ==> Format(m) == Name(m.action) + BodyText(ItemsOf(m))
  {
    if m.action == SharingContext {
      assert Name(m.action) + "" == Name(m.action);
      assert Name(m.action) + (" " + m.payload) == Name(m.action) + " " + m.payload;
    }
  }

  lemma KeysAreSorted(m: Message, keys: seq<string>)
    requires Ascending(keys) && forall k :: k in keys <==> k in m.fields
    ensures keys == SortedKeys(m.fields.Keys)
    ensures |ItemsOf(m)| == |keys| + |m.tags|
    ensures forall i :: 0 <= i < |keys| ==> keys[i] in m.fields && ItemsOf(m)[i] == Field(keys[i], m.fields[keys[i]])
    ensures forall i :: 0 <= i < |m.tags| ==> ItemsOf(m)[|keys| + i] == Tag(m.tags[i])
  {
    hide Ascending;
    AscendingUnique(keys, SortedKeys(m.fields.Keys));
    assert forall i :: 0 <= i < |keys| ==> keys[i] in keys;
  }

  lemma BodyTextNone(items: seq<Item>, b: string)
    ensures b == b + BodyText(items[..0])
  {
  }

  lemma BodyTextNext(items: seq<Item>, i: nat)
    requires i < |items|
    ensures BodyText(items[..i + 1]) == BodyText(items[..i]) + " " + ItemText(items[i])
  {
    assert items[..i + 1][..i] == items[..i];
  }

  lemma TagText(t: string)
    ensures ItemText(Tag(t)) == "#" + t
  {
  }
}
