/** The per-window event and its JSON text. Number formatting is a parameter: the text is a token. */
module DetectionEvent {

  datatype Event = Event(timestamp: string, classIdx: int, className: string, confidence: real, host: string,
                         alert: bool, features: seq<real>)

  /** to_string, "%.4f" and "%.6g". */
  datatype Format = Format(integer: int -> string, fixed: real -> string, general: real -> string)

  function EscapeChar(c: char): string {
    if c == '"' then ['\\', '"']
    else if c == '\\' then ['\\', '\\']
    else if c == '\n' then ['\\', 'n']
    else if c == '\t' then ['\\', 't']
    else if c == '\r' then ['\\', 'r']
    else [c]
  }

  function Escape(s: string): string {
    if s == "" then "" else EscapeChar(s[0]) + Escape(s[1..])
  }

  function Key(name: string): string {
    "\"" + name + "\":"
  }

  function Text(s: string): string {
    "\"" + Escape(s) + "\""
  }

  function Joined(items: seq<string>): string {
    if items == [] then "" else if |items| == 1 then items[0] else items[0] + "," + Joined(items[1..])
  }

  function Numbers(xs: seq<real>, fmt: Format): (t: seq<string>)
    ensures |t| == |xs|
  {
    seq(|xs|, i requires 0 <= i < |xs| => fmt.general(xs[i]))
  }

  /** The members of the object, as key and value texts. */
  function Members(e: Event, includeFeatures: bool, fmt: Format): seq<string> {
    [Key("timestamp") + Text(e.timestamp),
     Key("class") + fmt.integer(e.classIdx),
     Key("class_name") + Text(e.className),
     Key("confidence") + fmt.fixed(e.confidence),
     Key("alert") + (if e.alert then "true" else "false"),
     Key("host") + Text(e.host)]
    + if includeFeatures then [Key("features") + "[" + Joined(Numbers(e.features, fmt)) + "]"] else []
  }

  function ToJson(e: Event, includeFeatures: bool, fmt: Format): string {
    "{" + Joined(Members(e, includeFeatures, fmt)) + "}"
  }

  method JsonEscape(s: string) returns (o: string)
    ensures o == Escape(s)
  {
    o := "";
    var i := 0;
    while i < |s|
      invariant 0 <= i <= |s| && o + Escape(s[i..]) == Escape(s)
    {
      assert s[i..][0] == s[i] && s[i..][1..] == s[i + 1..];
      assert o + Escape(s[i..]) == o + EscapeChar(s[i]) + Escape(s[i + 1..]);
      match s[i] {
        case '"' => o := o + "\\\"";
        case '\\' => o := o + "\\\\";
        case '\n' => o := o + "\\n";
        case '\t' => o := o + "\\t";
        case '\r' => o := o + "\\r";
        case c => o := o + [c];
      }
      i := i + 1;
    }
    assert s[|s|..] == "" && o + "" == o;
  }

  lemma {:induction false} JoinedNext(items: seq<string>, item: string)
    ensures Joined(items + [item]) == if items == [] then item else Joined(items) + "," + item
  {
    if |items| > 1 {
      JoinedNext(items[1..], item);
      assert (items + [item])[1..] == items[1..] + [item];
    } else if |items| == 1 {
      assert (items + [item])[1..] == [item];
    }
  }

  method FeatureList(features: seq<real>, fmt: Format) returns (j: string)
    ensures j == Joined(Numbers(features, fmt))
  {
    j := "";
    var i := 0;
    while i < |features|
      invariant 0 <= i <= |features|
      invariant j == Joined(Numbers(features[..i], fmt)) + if 0 < i < |features| then "," else ""
    {
      assert Numbers(features[..i + 1], fmt) == Numbers(features[..i], fmt) + [fmt.general(features[i])];
      JoinedNext(Numbers(features[..i], fmt), fmt.general(features[i]));
      j := j + fmt.general(features[i]);
      if i + 1 < |features| {
        j := j + ",";
      }
      i := i + 1;
    }
    assert features[..|features|] == features;
  }

  /** What was seen, and when. */
  method FirstMembers(e: Event, fmt: Format, ghost m: seq<string>) returns (j: string)
    requires |m| >= 6 && m <= Members(e, true, fmt)
    ensures j == Joined(m[..3])
  {
    var timestamp := JsonEscape(e.timestamp);
    var className := JsonEscape(e.className);
    j := Key("timestamp") + ("\"" + timestamp + "\"");
    assert m[..1] == [j];
    j := AppendMember(j, Key("class") + fmt.integer(e.classIdx), m, 1);
    j := AppendMember(j, Key("class_name") + ("\"" + className + "\""), m, 2);
  }

  /** The confidence, the verdict and the host. */
  method LastMembers(e: Event, fmt: Format, ghost m: seq<string>, first: string) returns (j: string)
    requires |m| >= 6 && m <= Members(e, true, fmt)
    requires first == Joined(m[..3])
    ensures j == Joined(m[..6])
  {
    var host := JsonEscape(e.host);
    j := AppendMember(first, Key("confidence") + fmt.fixed(e.confidence), m, 3);
    j := AppendMember(j, Key("alert") + (if e.alert then "true" else "false"), m, 4);
    j := AppendMember(j, Key("host") + ("\"" + host + "\""), m, 5);
  }

  /** The object text, built piece by piece. */
  method EventToJson(e: Event, includeFeatures: bool, fmt: Format) returns (j: string)
    ensures j == ToJson(e, includeFeatures, fmt)
  {
    ghost var m := Members(e, includeFeatures, fmt);
    assert m <= Members(e, true, fmt);
    j := FirstMembers(e, fmt, m);
    j := LastMembers(e, fmt, m, j);
    if includeFeatures {
      var list := FeatureList(e.features, fmt);
      j := AppendMember(j, Key("features") + "[" + list + "]", m, 6);
    }
    assert m[..|m|] == m;
    j := "{" + j + "}";
  }

  method AppendMember(j: string, member: string, ghost m: seq<string>, ghost k: nat) returns (r: string)
    requires 0 < k < |m| && j == Joined(m[..k]) && member == m[k]
    ensures r == Joined(m[..k + 1])
  {
    assert m[..k + 1] == m[..k] + [m[k]];
    JoinedNext(m[..k], m[k]);
    r := j + "," + member;
  }
}
