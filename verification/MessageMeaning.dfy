/** What a receiver finds in the messages that the service publishes. */
module MessageMeaning {
  import opened Bytes
  import opened MqttWire
  import opened DetectionEvent
  import opened Detection
  import J = JsonReader
  import JP = JsonProofs

  // ---- strings as bytes ----

  /** A string whose characters are bytes, as the C++ program's are. */
  predicate IsBytes(s: string) {
    forall i :: 0 <= i < |s| ==> s[i] as int < 256
  }

  function Characters(b: seq<byte>): (s: string)
    ensures |s| == |b|
  {
    seq(|b|, i requires 0 <= i < |b| => b[i] as char)
  }

  lemma BytesRoundTrip(s: string)
    requires IsBytes(s)
    ensures Characters(ToBytes(s)) == s
  {
  }

  lemma {:induction false} EscapeIsBytes(s: string)
    requires IsBytes(s)
    ensures IsBytes(Escape(s))
  {
    if s != "" {
      EscapeIsBytes(s[1..]);
      assert IsBytes(EscapeChar(s[0]));
    }
  }

  predicate AllBytes(items: seq<string>) {
    forall i :: 0 <= i < |items| ==> IsBytes(items[i])
  }

  lemma {:induction false} JoinedIsBytes(items: seq<string>)
    requires AllBytes(items)
    ensures IsBytes(Joined(items))
  {
    if |items| > 1 {
      JoinedIsBytes(items[1..]);
      assert IsBytes(items[0]);
    } else if |items| == 1 {
      assert IsBytes(items[0]);
    }
  }

  lemma NumberIsBytes(t: string)
    requires JP.IsNumberText(t)
    ensures IsBytes(t)
  {
    forall i | 0 <= i < |t|
      ensures t[i] as int < 256
    {
      assert J.IsNumberChar(t[i]);
    }
  }

  lemma ConcatIsBytes(a: string, b: string, c: string, d: string)
    requires IsBytes(a) && IsBytes(b) && IsBytes(c) && IsBytes(d)
    ensures IsBytes(a + b + c + d)
  {
  }

  lemma KeyIsBytes(name: string)
    requires IsBytes(name)
    ensures IsBytes(Key(name))
  {
  }

  lemma KeyedIsBytes(name: string, t: string)
    requires IsBytes(name) && IsBytes(t)
    ensures IsBytes(Key(name) + t)
  {
    KeyIsBytes(name);
  }

  lemma TextIsBytes(name: string, s: string)
    requires IsBytes(name) && IsBytes(s)
    ensures IsBytes(Key(name) + Text(s))
  {
    EscapeIsBytes(s);
    KeyedIsBytes(name, Text(s));
  }

  lemma FeaturesAreBytes(name: string, xs: seq<real>, fmt: Format)
    requires IsBytes(name) && forall i :: 0 <= i < |xs| ==> JP.IsNumberText(fmt.general(xs[i]))
    ensures IsBytes(Key(name) + "[" + Joined(Numbers(xs, fmt)) + "]")
  {
    forall i | 0 <= i < |xs|
      ensures IsBytes(Numbers(xs, fmt)[i])
    {
      NumberIsBytes(fmt.general(xs[i]));
    }
    JoinedIsBytes(Numbers(xs, fmt));
    KeyIsBytes(name);
    ConcatIsBytes(Key(name), "[", Joined(Numbers(xs, fmt)), "]");
  }

  predicate EventIsBytes(e: Event) {
    IsBytes(e.timestamp) && IsBytes(e.className) && IsBytes(e.host)
  }

  lemma SixAreBytes(a: string, b: string, c: string, d: string, e: string, f: string, more: seq<string>)
    requires IsBytes(a) && IsBytes(b) && IsBytes(c) && IsBytes(d) && IsBytes(e) && IsBytes(f) && AllBytes(more)
    ensures AllBytes([a, b, c, d, e, f] + more)
  {
  }

  lemma NamesAreBytes()
    ensures IsBytes("timestamp") && IsBytes("class") && IsBytes("class_name") && IsBytes("confidence")
    ensures IsBytes("alert") && IsBytes("host") && IsBytes("features")
  {
  }

  lemma BoolIsBytes(b: bool)
    ensures IsBytes(if b then "true" else "false")
  {
  }

  lemma MembersAreBytes(e: Event, includeFeatures: bool, fmt: Format)
    requires JP.NumbersFormatted(e, fmt) && EventIsBytes(e)
    ensures AllBytes(Members(e, includeFeatures, fmt))
  {
    NamesAreBytes();
    NumberIsBytes(fmt.integer(e.classIdx));
    NumberIsBytes(fmt.fixed(e.confidence));
    BoolIsBytes(e.alert);
    TextIsBytes("timestamp", e.timestamp);
    KeyedIsBytes("class", fmt.integer(e.classIdx));
    TextIsBytes("class_name", e.className);
    KeyedIsBytes("confidence", fmt.fixed(e.confidence));
    KeyedIsBytes("alert", if e.alert then "true" else "false");
    TextIsBytes("host", e.host);
    FeaturesAreBytes("features", e.features, fmt);
    SixAreBytes(Key("timestamp") + Text(e.timestamp), Key("class") + fmt.integer(e.classIdx), Key("class_name") + Text(e.className),
                Key("confidence") + fmt.fixed(e.confidence), Key("alert") + (if e.alert then "true" else "false"), Key("host") + Text(e.host),
                if includeFeatures then [Key("features") + "[" + Joined(Numbers(e.features, fmt)) + "]"] else []);
  }

  lemma JsonIsBytes(e: Event, includeFeatures: bool, fmt: Format)
    requires JP.NumbersFormatted(e, fmt) && EventIsBytes(e)
    ensures IsBytes(ToJson(e, includeFeatures, fmt))
  {
    MembersAreBytes(e, includeFeatures, fmt);
    JoinedIsBytes(Members(e, includeFeatures, fmt));
  }

  // ---- topics ----

  /** The part of a topic after its last slash. */
  function LastLevel(t: string): string {
    if t == "" || t[|t| - 1] == '/' then "" else LastLevel(t[..|t| - 1]) + [t[|t| - 1]]
  }

  /** The part before it. */
  function Parent(t: string): string {
    if t == "" then "" else if t[|t| - 1] == '/' then t[..|t| - 1] else Parent(t[..|t| - 1])
  }

  lemma {:induction false} LevelsOf(parent: string, level: string)
    requires '/' !in level
    ensures LastLevel(parent + "/" + level) == level && Parent(parent + "/" + level) == parent
    decreases |level|
  {
    var t := parent + "/" + level;
    if level == "" {
      assert t[..|t| - 1] == parent;
    } else {
      var n := |level| - 1;
      LevelsOf(parent, level[..n]);
      assert t[..|t| - 1] == parent + "/" + level[..n];
    }
  }

  lemma {:induction false} LevelHasNoSlash(t: string)
    ensures '/' !in LastLevel(t)
  {
    if t != "" && t[|t| - 1] != '/' {
      LevelHasNoSlash(t[..|t| - 1]);
    }
  }

  /** The topic names its kind in its last level, and, if and only if the host has no slash, the host in the level above. */
  predicate IsTopic(t: string, cfg: Config, kind: string) {
    && LastLevel(t) == kind
    && (LastLevel(Parent(t)) == cfg.host <==> '/' !in cfg.host)
    && ('/' !in cfg.host ==> Parent(Parent(t)) == cfg.topicPrefix)
  }

  lemma TopicLevels(cfg: Config, kind: string, t: string)
    requires '/' !in kind && t == cfg.topicPrefix + "/" + cfg.host + "/" + kind
    ensures IsTopic(t, cfg, kind)
  {
    var above := cfg.topicPrefix + "/" + cfg.host;
    LevelsOf(above, kind);
    LevelHasNoSlash(above);
    if '/' !in cfg.host {
      LevelsOf(cfg.topicPrefix, cfg.host);
    }
  }

  // ---- messages ----

  /** The message is on a topic of this kind, is not retained, and a JSON reader makes the event of its payload. */
  predicate Tells(m: Message, st: Setting, e: Event, kind: string) {
    && IsTopic(Characters(m.topic), st.cfg, kind) && !m.retain
    && J.ReadValue(Characters(m.payload))
       == if JP.CleanEvent(e) then J.Got(J.Object(JP.EventMembers(e, st.cfg.includeFeatures, st.fmt)), "") else J.Bad
  }

  lemma PayloadRead(e: Event, includeFeatures: bool, fmt: Format)
    requires JP.NumbersFormatted(e, fmt) && EventIsBytes(e)
    ensures J.ReadValue(Characters(ToBytes(ToJson(e, includeFeatures, fmt))))
            == if JP.CleanEvent(e) then J.Got(J.Object(JP.EventMembers(e, includeFeatures, fmt)), "") else J.Bad
  {
    JsonIsBytes(e, includeFeatures, fmt);
    BytesRoundTrip(ToJson(e, includeFeatures, fmt));
    JP.EventRoundTrip(e, includeFeatures, fmt, "");
    assert ToJson(e, includeFeatures, fmt) + "" == ToJson(e, includeFeatures, fmt);
  }

  lemma TopicIsBytes(cfg: Config, kind: string)
    requires IsBytes(cfg.topicPrefix) && IsBytes(cfg.host) && IsBytes(kind)
    ensures IsBytes(cfg.topicPrefix + "/" + cfg.host + "/" + kind)
  {
    ConcatIsBytes(cfg.topicPrefix, "/", cfg.host, "/");
    ConcatIsBytes(cfg.topicPrefix + "/" + cfg.host + "/", kind, "", "");
  }

  lemma MessageTells(m: Message, st: Setting, e: Event, topic: string, kind: string)
    requires JP.NumbersFormatted(e, st.fmt) && EventIsBytes(e) && IsBytes(st.cfg.topicPrefix) && IsBytes(st.cfg.host)
    requires IsBytes(kind) && '/' !in kind && topic == st.cfg.topicPrefix + "/" + st.cfg.host + "/" + kind
    requires m == Message(ToBytes(topic), ToBytes(ToJson(e, st.cfg.includeFeatures, st.fmt)), false)
    ensures Tells(m, st, e, kind)
  {
    PayloadRead(e, st.cfg.includeFeatures, st.fmt);
    TopicIsBytes(st.cfg, kind);
    BytesRoundTrip(topic);
    TopicLevels(st.cfg, kind, topic);
  }

  lemma TopicTexts(cfg: Config)
    ensures EventsTopic(cfg) == cfg.topicPrefix + "/" + cfg.host + "/" + "events"
    ensures AlertsTopic(cfg) == cfg.topicPrefix + "/" + cfg.host + "/" + "alerts"
  {
  }

  lemma KindsAreBytes()
    ensures IsBytes("events") && '/' !in "events" && IsBytes("alerts") && '/' !in "alerts"
  {
  }

  /** Both messages of a window tell its event, each on its own kind of topic. */
  lemma MessagesTell(st: Setting, e: Event)
    requires JP.NumbersFormatted(e, st.fmt) && EventIsBytes(e) && IsBytes(st.cfg.topicPrefix) && IsBytes(st.cfg.host)
    ensures Tells(EventMessage(st, e), st, e, "events") && Tells(AlertMessage(st, e), st, e, "alerts")
  {
    TopicTexts(st.cfg);
    KindsAreBytes();
    MessageTells(EventMessage(st, e), st, e, EventsTopic(st.cfg), "events");
    MessageTells(AlertMessage(st, e), st, e, AlertsTopic(st.cfg), "alerts");
  }
}
