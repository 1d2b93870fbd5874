/** The event text is JSON: reading it gives back every field, exactly when its strings need no other escapes. */
module JsonProofs {
  import opened Bytes
  import opened DetectionEvent
  import opened JsonReader

  /** The only control characters are the three that the writer escapes. */
  predicate Clean(s: string) {
    forall i :: 0 <= i < |s| ==> IsControl(s[i]) ==> s[i] in {'\n', '\t', '\r'}
  }

  lemma CharRead(c: char, after: string)
    ensures ReadString(EscapeChar(c) + after) ==
            if IsControl(c) && c !in {'\n', '\t', '\r'} then Bad else Before(c, ReadString(after))
  {
  }

  lemma CleanSplit(s: string)
    requires s != ""
    ensures Clean(s) <==> (IsControl(s[0]) ==> s[0] in {'\n', '\t', '\r'}) && Clean(s[1..])
  {
  }

  lemma Assoc(a: string, b: string, c: string, d: string)
    ensures a + b + c + d == a + (b + c + d)
  {
  }

  /** Up to the closing quote, the reader recovers a clean string and rejects any other. */
  lemma {:induction false} EscapeRoundTrip(s: string, rest: string)
    ensures ReadString(Escape(s) + "\"" + rest) == if Clean(s) then Got(s, rest) else Bad
    decreases |s|
  {
    if s == "" {
      assert ("" + "\"" + rest)[1..] == rest;
    } else {
      EscapeRoundTrip(s[1..], rest);
      CharRead(s[0], Escape(s[1..]) + "\"" + rest);
      Assoc(EscapeChar(s[0]), Escape(s[1..]), "\"", rest);
      assert s == [s[0]] + s[1..];
      CleanSplit(s);
    }
  }

  // ---- values ----

  /** What follows a value inside an object or an array. */
  predicate Stops(rest: string) {
    rest != "" && rest[0] in {',', ']', '}'}
  }

  ghost predicate ReadsAs(t: string, v: Json) {
    forall rest :: Stops(rest) ==> ReadValue(t + rest) == Got(v, rest)
  }

  ghost predicate Unreadable(t: string) {
    forall rest :: ReadValue(t + rest) == Bad
  }

  lemma TextReads(s: string)
    ensures Clean(s) ==> ReadsAs(Text(s), String(s))
    ensures !Clean(s) ==> Unreadable(Text(s))
  {
    forall rest: string
      ensures ReadValue(Text(s) + rest) == if Clean(s) then Got(String(s), rest) else Bad
    {
      EscapeRoundTrip(s, rest);
      assert (Text(s) + rest)[1..] == Escape(s) + "\"" + rest;
    }
  }

  predicate IsNumberText(t: string) {
    t != "" && IsNumber(t) && forall i :: 0 <= i < |t| ==> IsNumberChar(t[i])
  }

  lemma {:induction false} NumberLengthOf(t: string, rest: string)
    requires (forall i :: 0 <= i < |t| ==> IsNumberChar(t[i])) && Stops(rest)
    ensures NumberLength(t + rest) == |t|
    decreases |t|
  {
    if t == "" {
      assert t + rest == rest;
    } else {
      NumberLengthOf(t[1..], rest);
      assert (t + rest)[1..] == t[1..] + rest;
    }
  }

  lemma NumberReads(t: string)
    requires IsNumberText(t)
    ensures ReadsAs(t, Number(t))
  {
    forall rest | Stops(rest)
      ensures ReadValue(t + rest) == Got(Number(t), rest)
    {
      NumberLengthOf(t, rest);
      assert (t + rest)[0] == t[0] && IsNumberChar(t[0]);
      assert (t + rest)[..|t|] == t && (t + rest)[|t|..] == rest;
    }
  }

  lemma BoolReads(b: bool)
    ensures ReadsAs(if b then "true" else "false", Bool(b))
  {
  }

  lemma Regroup(a: string, b: string, c: string, d: string)
    ensures a + "," + b + c + d == a + ("," + (b + c + d))
  {
  }

  function NumberItems(ts: seq<string>): (v: seq<Json>)
    ensures |v| == |ts|
  {
    seq(|ts|, i requires 0 <= i < |ts| => Number(ts[i]))
  }

  lemma ItemsStep(t: string, v: Json, after: string)
    requires ReadsAs(t, v) && Stops(after)
    ensures ReadValue(t + after) == Got(v, after)
  {
  }

  lemma OneItemRead(t: string, rest: string)
    requires IsNumberText(t)
    ensures ReadItems(t + "]" + rest) == Got([Number(t)], rest)
  {
    var after := "]" + rest;
    NumberReads(t);
    ItemsStep(t, Number(t), after);
    assert t + "]" + rest == t + after && after[1..] == rest;
  }

  lemma FirstItemRead(t: string, more: string)
    requires IsNumberText(t) && ReadItems(more).Got?
    ensures ReadItems(t + ("," + more)) == Got([Number(t)] + ReadItems(more).value, ReadItems(more).rest)
  {
    var after := "," + more;
    NumberReads(t);
    ItemsStep(t, Number(t), after);
    assert after[1..] == more;
  }

  predicate AllNumberTexts(ts: seq<string>) {
    forall i :: 0 <= i < |ts| ==> IsNumberText(ts[i])
  }

  lemma NumberTextsTail(ts: seq<string>)
    requires AllNumberTexts(ts) && ts != []
    ensures IsNumberText(ts[0]) && AllNumberTexts(ts[1..])
  {
  }

  lemma NumberItemsNext(ts: seq<string>)
    requires ts != []
    ensures NumberItems(ts) == [Number(ts[0])] + NumberItems(ts[1..])
  {
  }

  lemma ItemsTail(ts: seq<string>, rest: string)
    requires |ts| > 1 && IsNumberText(ts[0]) && ReadItems(Joined(ts[1..]) + "]" + rest).Got?
    ensures var more := ReadItems(Joined(ts[1..]) + "]" + rest);
            ReadItems(Joined(ts) + "]" + rest) == Got([Number(ts[0])] + more.value, more.rest)
  {
    FirstItemRead(ts[0], Joined(ts[1..]) + "]" + rest);
    Regroup(ts[0], Joined(ts[1..]), "]", rest);
  }

  lemma {:induction false} ItemsRead(ts: seq<string>, rest: string)
    requires ts != [] && AllNumberTexts(ts)
    ensures ReadItems(Joined(ts) + "]" + rest) == Got(NumberItems(ts), rest)
    decreases |ts|
  {
    NumberTextsTail(ts);
    NumberItemsNext(ts);
    if |ts| == 1 {
      OneItemRead(ts[0], rest);
      assert NumberItems(ts) == [Number(ts[0])];
    } else {
      ItemsRead(ts[1..], rest);
      ItemsTail(ts, rest);
    }
  }

  lemma ArrayRead(ts: seq<string>, rest: string)
    requires AllNumberTexts(ts)
    ensures ReadValue("[" + (Joined(ts) + "]" + rest)) == Got(Array(NumberItems(ts)), rest)
  {
    var tail := Joined(ts) + "]" + rest;
    var s := "[" + tail;
    assert s[0] == '[' && s[1..] == tail;
    if ts == [] {
      assert s[1] == ']' && s[2..] == rest;
    } else {
      JoinedStartsWithNumber(ts);
      assert s[1] == Joined(ts)[0];
      ItemsRead(ts, rest);
    }
  }

  lemma ArrayReads(ts: seq<string>)
    requires AllNumberTexts(ts)
    ensures ReadsAs("[" + Joined(ts) + "]", Array(NumberItems(ts)))
  {
    forall rest | Stops(rest)
      ensures ReadValue("[" + Joined(ts) + "]" + rest) == Got(Array(NumberItems(ts)), rest)
    {
      ArrayRead(ts, rest);
      Assoc("[", Joined(ts), "]", rest);
    }
  }

  lemma JoinedStartsWithNumber(ts: seq<string>)
    requires ts != [] && IsNumberText(ts[0])
    ensures Joined(ts) != "" && IsNumberChar(Joined(ts)[0])
  {
  }

  // ---- members ----

  /** A name that is written as it is. */
  predicate Plain(name: string) {
    forall i :: 0 <= i < |name| ==> !IsControl(name[i]) && name[i] != '"' && name[i] != '\\'
  }

  lemma {:induction false} PlainRead(name: string, rest: string)
    requires Plain(name)
    ensures ReadString(name + "\"" + rest) == Got(name, rest)
    decreases |name|
  {
    if name == "" {
      assert ("" + "\"" + rest)[1..] == rest;
    } else {
      PlainRead(name[1..], rest);
      assert (name + "\"" + rest)[1..] == name[1..] + "\"" + rest;
      assert [name[0]] + name[1..] == name;
    }
  }

  ghost predicate MemberReadsAs(t: string, m: (string, Json)) {
    forall rest :: Stops(rest) ==> ReadMember(t + rest) == Got(m, rest)
  }

  ghost predicate MemberUnreadable(t: string) {
    forall rest :: ReadMember(t + rest) == Bad
  }

  lemma MemberValue(name: string, t: string, rest: string)
    requires Plain(name)
    ensures ReadMember(Key(name) + t + rest) ==
            match ReadValue(t + rest)
            case Bad => Bad
            case Got(v, after) => Got((name, v), after)
  {
    var s := Key(name) + t + rest;
    assert s[1..] == name + "\"" + (":" + t + rest);
    PlainRead(name, ":" + t + rest);
    assert (":" + t + rest)[1..] == t + rest;
  }

  lemma MemberReads(name: string, t: string, v: Json)
    requires Plain(name) && ReadsAs(t, v)
    ensures MemberReadsAs(Key(name) + t, (name, v))
  {
    forall rest | Stops(rest)
      ensures ReadMember(Key(name) + t + rest) == Got((name, v), rest)
    {
      MemberValue(name, t, rest);
    }
  }

  lemma MemberFails(name: string, t: string)
    requires Plain(name) && Unreadable(t)
    ensures MemberUnreadable(Key(name) + t)
  {
    forall rest: string
      ensures ReadMember(Key(name) + t + rest) == Bad
    {
      MemberValue(name, t, rest);
    }
  }

  lemma MembersStep(s: string, m: (string, Json), after: string)
    requires ReadMember(s) == Got(m, after) && after != ""
    ensures after[0] == '}' ==> ReadMembers(s) == Got([m], after[1..])
    ensures after[0] == ',' && ReadMembers(after[1..]).Got? ==>
              ReadMembers(s) == Got([m] + ReadMembers(after[1..]).value, ReadMembers(after[1..]).rest)
    ensures after[0] == ',' && ReadMembers(after[1..]).Bad? ==> ReadMembers(s) == Bad
  {
  }

  /** What follows the first of some members. */
  function AfterFirst(ts: seq<string>, rest: string): (after: string)
    requires ts != []
    ensures Stops(after)
  {
    if |ts| == 1 then "}" + rest else "," + (Joined(ts[1..]) + "}" + rest)
  }

  lemma TailOfAfter(ts: seq<string>, rest: string)
    requires ts != []
    ensures AfterFirst(ts, rest)[1..] == if |ts| == 1 then rest else Joined(ts[1..]) + "}" + rest
  {
    if |ts| == 1 {
      assert ("}" + rest)[1..] == rest;
    } else {
      assert ("," + (Joined(ts[1..]) + "}" + rest))[1..] == Joined(ts[1..]) + "}" + rest;
    }
  }

  lemma SplitFirst(ts: seq<string>, rest: string)
    requires ts != []
    ensures Joined(ts) + "}" + rest == ts[0] + AfterFirst(ts, rest)
    ensures AfterFirst(ts, rest)[1..] == if |ts| == 1 then rest else Joined(ts[1..]) + "}" + rest
  {
    TailOfAfter(ts, rest);
    if |ts| == 1 {
      assert ts[0] + "}" + rest == ts[0] + ("}" + rest);
    } else {
      Regroup(ts[0], Joined(ts[1..]), "}", rest);
    }
  }

  ghost predicate AllReadAs(ts: seq<string>, ms: seq<(string, Json)>) {
    |ts| == |ms| && forall i :: 0 <= i < |ts| ==> MemberReadsAs(ts[i], ms[i])
  }

  lemma AllReadTail(ts: seq<string>, ms: seq<(string, Json)>)
    requires AllReadAs(ts, ms) && ts != []
    ensures MemberReadsAs(ts[0], ms[0]) && AllReadAs(ts[1..], ms[1..])
  {
  }

  function MembersText(ts: seq<string>, rest: string): string {
    Joined(ts) + "}" + rest
  }

  lemma FirstMemberRead(ts: seq<string>, m: (string, Json), rest: string)
    requires ts != [] && MemberReadsAs(ts[0], m)
    ensures |ts| == 1 ==> ReadMembers(MembersText(ts, rest)) == Got([m], rest)
    ensures |ts| > 1 ==>
              match ReadMembers(MembersText(ts[1..], rest))
              case Bad => ReadMembers(MembersText(ts, rest)) == Bad
              case Got(ms, end) => ReadMembers(MembersText(ts, rest)) == Got([m] + ms, end)
  {
    SplitFirst(ts, rest);
    assert ReadMember(ts[0] + AfterFirst(ts, rest)) == Got(m, AfterFirst(ts, rest));
    MembersStep(ts[0] + AfterFirst(ts, rest), m, AfterFirst(ts, rest));
  }

  lemma {:induction false} MembersRead(ts: seq<string>, ms: seq<(string, Json)>, rest: string)
    requires ts != [] && AllReadAs(ts, ms)
    ensures ReadMembers(MembersText(ts, rest)) == Got(ms, rest)
    decreases |ts|
  {
    AllReadTail(ts, ms);
    FirstMemberRead(ts, ms[0], rest);
    if |ts| > 1 {
      MembersRead(ts[1..], ms[1..], rest);
      assert ms == [ms[0]] + ms[1..];
    } else {
      assert ms == [ms[0]];
    }
  }

  lemma TailReadAs(ts: seq<string>, ms: seq<(string, Json)>, k: nat)
    requires 0 < k < |ts| && AllReadAs(ts[..k], ms)
    ensures MemberReadsAs(ts[0], ms[0]) && AllReadAs(ts[1..][..k - 1], ms[1..])
  {
  }

  lemma FirstMemberFails(ts: seq<string>, rest: string)
    requires ts != [] && MemberUnreadable(ts[0])
    ensures ReadMembers(MembersText(ts, rest)) == Bad
  {
    SplitFirst(ts, rest);
    assert ReadMember(ts[0] + AfterFirst(ts, rest)) == Bad;
  }

  /** One unreadable member makes the whole list unreadable. */
  lemma {:induction false} MembersFail(ts: seq<string>, ms: seq<(string, Json)>, k: nat, rest: string)
    requires k < |ts| && MemberUnreadable(ts[k]) && AllReadAs(ts[..k], ms)
    ensures ReadMembers(MembersText(ts, rest)) == Bad
    decreases |ts|
  {
    if k == 0 {
      FirstMemberFails(ts, rest);
    } else {
      TailReadAs(ts, ms, k);
      FirstMemberRead(ts, ms[0], rest);
      MembersFail(ts[1..], ms[1..], k - 1, rest);
    }
  }

  // ---- the event ----

  /** Every feature as a number, in order. */
  function FeatureItems(xs: seq<real>, fmt: Format): seq<Json> {
    seq(|xs|, i requires 0 <= i < |xs| => Number(fmt.general(xs[i])))
  }

  function EventMembers(e: Event, includeFeatures: bool, fmt: Format): seq<(string, Json)> {
    [("timestamp", String(e.timestamp)),
     ("class", Number(fmt.integer(e.classIdx))),
     ("class_name", String(e.className)),
     ("confidence", Number(fmt.fixed(e.confidence))),
     ("alert", Bool(e.alert)),
     ("host", String(e.host))]
    + if includeFeatures then [("features", Array(FeatureItems(e.features, fmt)))] else []
  }

  /** The formatted numbers look like numbers. */
  predicate NumbersFormatted(e: Event, fmt: Format) {
    && IsNumberText(fmt.integer(e.classIdx)) && IsNumberText(fmt.fixed(e.confidence))
    && forall i :: 0 <= i < |e.features| ==> IsNumberText(fmt.general(e.features[i]))
  }

  predicate CleanEvent(e: Event) {
    Clean(e.timestamp) && Clean(e.className) && Clean(e.host)
  }

  lemma NamesArePlain()
    ensures Plain("timestamp") && Plain("class") && Plain("class_name") && Plain("confidence")
    ensures Plain("alert") && Plain("host") && Plain("features")
  {
  }

  ghost predicate ReadIfClean(t: string, m: (string, Json), clean: bool) {
    if clean then MemberReadsAs(t, m) else MemberUnreadable(t)
  }

  lemma StringMember(name: string, s: string)
    requires Plain(name)
    ensures ReadIfClean(Key(name) + Text(s), (name, String(s)), Clean(s))
  {
    TextReads(s);
    if Clean(s) {
      MemberReads(name, Text(s), String(s));
    } else {
      MemberFails(name, Text(s));
    }
  }

  lemma NumberMember(name: string, t: string)
    requires Plain(name) && IsNumberText(t)
    ensures ReadIfClean(Key(name) + t, (name, Number(t)), true)
  {
    NumberReads(t);
    MemberReads(name, t, Number(t));
  }

  /** Whether member k is a string that needs no other escapes, or no string. */
  predicate MemberClean(e: Event, k: nat) {
    (k == 0 ==> Clean(e.timestamp)) && (k == 2 ==> Clean(e.className)) && (k == 5 ==> Clean(e.host))
  }

  lemma FeaturesMember(e: Event, fmt: Format)
    requires NumbersFormatted(e, fmt)
    ensures ReadIfClean(Key("features") + "[" + Joined(Numbers(e.features, fmt)) + "]",
                        ("features", Array(FeatureItems(e.features, fmt))), true)
  {
    var ts := Numbers(e.features, fmt);
    assert NumberItems(ts) == FeatureItems(e.features, fmt);
    NamesArePlain();
    ArrayReads(ts);
    MemberReads("features", "[" + Joined(ts) + "]", Array(NumberItems(ts)));
    Assoc(Key("features"), "[", Joined(ts), "]");
  }

  lemma AlertMember(b: bool)
    ensures ReadIfClean(Key("alert") + (if b then "true" else "false"), ("alert", Bool(b)), true)
  {
    NamesArePlain();
    BoolReads(b);
    MemberReads("alert", if b then "true" else "false", Bool(b));
  }

  predicate MemberIs(e: Event, includeFeatures: bool, fmt: Format, k: nat, t: string, m: (string, Json), clean: bool) {
    && k < |Members(e, includeFeatures, fmt)|
    && Members(e, includeFeatures, fmt)[k] == t && EventMembers(e, includeFeatures, fmt)[k] == m && MemberClean(e, k) == clean
  }

  ghost predicate MemberRead(e: Event, includeFeatures: bool, fmt: Format, k: nat) {
    && k < |Members(e, includeFeatures, fmt)|
    && ReadIfClean(Members(e, includeFeatures, fmt)[k], EventMembers(e, includeFeatures, fmt)[k], MemberClean(e, k))
  }

  lemma MemberIsRead(e: Event, includeFeatures: bool, fmt: Format, k: nat, t: string, m: (string, Json), clean: bool)
    requires ReadIfClean(t, m, clean) && MemberIs(e, includeFeatures, fmt, k, t, m, clean)
    ensures MemberRead(e, includeFeatures, fmt, k)
  {
  }

  lemma StringMemberAt(e: Event, includeFeatures: bool, fmt: Format, k: nat, name: string, s: string)
    requires Plain(name) && MemberIs(e, includeFeatures, fmt, k, Key(name) + Text(s), (name, String(s)), Clean(s))
    ensures MemberRead(e, includeFeatures, fmt, k)
  {
    StringMember(name, s);
    MemberIsRead(e, includeFeatures, fmt, k, Key(name) + Text(s), (name, String(s)), Clean(s));
  }

  lemma NumberMemberAt(e: Event, includeFeatures: bool, fmt: Format, k: nat, name: string, t: string)
    requires Plain(name) && IsNumberText(t) && MemberIs(e, includeFeatures, fmt, k, Key(name) + t, (name, Number(t)), true)
    ensures MemberRead(e, includeFeatures, fmt, k)
  {
    NumberMember(name, t);
    MemberIsRead(e, includeFeatures, fmt, k, Key(name) + t, (name, Number(t)), true);
  }

  lemma AlertMemberAt(e: Event, includeFeatures: bool, fmt: Format)
    ensures MemberRead(e, includeFeatures, fmt, 4)
  {
    AlertMember(e.alert);
    MemberIsRead(e, includeFeatures, fmt, 4, Key("alert") + (if e.alert then "true" else "false"), ("alert", Bool(e.alert)), true);
  }

  lemma FeaturesMemberAt(e: Event, includeFeatures: bool, fmt: Format)
    requires NumbersFormatted(e, fmt) && includeFeatures
    ensures MemberRead(e, includeFeatures, fmt, 6)
  {
    var ts := Numbers(e.features, fmt);
    FeaturesMember(e, fmt);
    MemberIsRead(e, includeFeatures, fmt, 6, Key("features") + "[" + Joined(ts) + "]", ("features", Array(FeatureItems(e.features, fmt))), true);
  }

  lemma TimestampAt(e: Event, includeFeatures: bool, fmt: Format)
    ensures MemberRead(e, includeFeatures, fmt, 0)
  {
    NamesArePlain();
    StringMemberAt(e, includeFeatures, fmt, 0, "timestamp", e.timestamp);
  }

  lemma ClassAt(e: Event, includeFeatures: bool, fmt: Format)
    requires IsNumberText(fmt.integer(e.classIdx))
    ensures MemberRead(e, includeFeatures, fmt, 1)
  {
    NamesArePlain();
    NumberMemberAt(e, includeFeatures, fmt, 1, "class", fmt.integer(e.classIdx));
  }

  lemma ClassNameAt(e: Event, includeFeatures: bool, fmt: Format)
    ensures MemberRead(e, includeFeatures, fmt, 2)
  {
    NamesArePlain();
    StringMemberAt(e, includeFeatures, fmt, 2, "class_name", e.className);
  }

  lemma ConfidenceAt(e: Event, includeFeatures: bool, fmt: Format)
    requires IsNumberText(fmt.fixed(e.confidence))
    ensures MemberRead(e, includeFeatures, fmt, 3)
  {
    NamesArePlain();
    NumberMemberAt(e, includeFeatures, fmt, 3, "confidence", fmt.fixed(e.confidence));
  }

  lemma HostAt(e: Event, includeFeatures: bool, fmt: Format)
    ensures MemberRead(e, includeFeatures, fmt, 5)
  {
    NamesArePlain();
    StringMemberAt(e, includeFeatures, fmt, 5, "host", e.host);
  }

  lemma MemberAt(e: Event, includeFeatures: bool, fmt: Format, k: nat)
    requires NumbersFormatted(e, fmt) && k < |Members(e, includeFeatures, fmt)|
    ensures MemberRead(e, includeFeatures, fmt, k)
  {
    match k
    case 0 => TimestampAt(e, includeFeatures, fmt);
    case 1 => ClassAt(e, includeFeatures, fmt);
    case 2 => ClassNameAt(e, includeFeatures, fmt);
    case 3 => ConfidenceAt(e, includeFeatures, fmt);
    case 4 => AlertMemberAt(e, includeFeatures, fmt);
    case 5 => HostAt(e, includeFeatures, fmt);
    case _ => FeaturesMemberAt(e, includeFeatures, fmt);
  }

  lemma ObjectOfMembers(ts: seq<string>, rest: string)
    requires ts != [] && ts[0] != "" && ts[0][0] == '"'
    ensures ReadValue("{" + Joined(ts) + "}" + rest) ==
            match ReadMembers(Joined(ts) + "}" + rest)
            case Bad => Bad
            case Got(members, after) => Got(Object(members), after)
  {
    var tail := Joined(ts) + "}" + rest;
    Assoc("{", Joined(ts), "}", rest);
    assert ("{" + tail)[1..] == tail && tail[0] == '"';
  }

  /**
    Reading an event's text gives an object with every field of the event, in order, exactly when the
    strings hold no control characters but newline, tab and carriage return; otherwise it is no JSON text.
   */
  lemma EventRoundTrip(e: Event, includeFeatures: bool, fmt: Format, rest: string)
    requires NumbersFormatted(e, fmt)
    ensures ReadValue(ToJson(e, includeFeatures, fmt) + rest) ==
            if CleanEvent(e) then Got(Object(EventMembers(e, includeFeatures, fmt)), rest) else Bad
  {
    var ts, ms := Members(e, includeFeatures, fmt), EventMembers(e, includeFeatures, fmt);
    forall k: nat | k < |ts|
      ensures ReadIfClean(ts[k], ms[k], MemberClean(e, k))
    {
      MemberAt(e, includeFeatures, fmt, k);
    }
    FirstIsMember(e, includeFeatures, fmt);
    ObjectOfMembers(ts, rest);
    if CleanEvent(e) {
      MembersRead(ts, ms, rest);
    } else {
      var k := if !Clean(e.timestamp) then 0 else if !Clean(e.className) then 2 else 5;
      MembersFail(ts, ms[..k], k, rest);
    }
  }

  lemma FirstIsMember(e: Event, includeFeatures: bool, fmt: Format)
    ensures var ts := Members(e, includeFeatures, fmt); |ts| >= 6 && ts[0] != "" && ts[0][0] == '"'
    ensures |Members(e, includeFeatures, fmt)| == |EventMembers(e, includeFeatures, fmt)|
  {
  }
}
