/** Which collector serves which feature, and under which tracefs path. */
module Routing {

  datatype Collector = Perf | Disk | Resource

  const DISK: set<string> := {"util", "write_kbs", "write_merge", "iowrite", "iowritetime"}
  const RESOURCE: set<string> := {"seconds_RES_data"}
  const SUFFIXES: seq<string> := ["_KERN_data", "_RES_data"]

  datatype Routes = Routes(perf: seq<(string, string)>, disk: seq<string>, resource: seq<string>)

  function Serves(name: string): Collector {
    if ':' in name then Perf
    else if name in DISK then Disk
    else if name in RESOURCE then Resource
    else Perf
  }

  predicate EndsWith(s: string, suffix: string) {
    |s| >= |suffix| && s[|s| - |suffix|..] == suffix
  }

  /** Drops the first of the suffixes that the name properly ends with. */
  function StripSuffix(name: string): (base: string)
    ensures base <= name
  {
    if |name| > |SUFFIXES[0]| && EndsWith(name, SUFFIXES[0]) then name[..|name| - |SUFFIXES[0]|]
    else if |name| > |SUFFIXES[1]| && EndsWith(name, SUFFIXES[1]) then name[..|name| - |SUFFIXES[1]|]
    else name
  }

  function Slashed(s: string): (t: string)
    ensures |t| == |s|
  {
    seq(|s|, i requires 0 <= i < |s| => if s[i] == ':' then '/' else s[i])
  }

  function Path(name: string): string {
    if ':' in name then Slashed(StripSuffix(name)) else "syscalls/sys_enter_" + name
  }

  /** The names a collector serves, in their order. */
  function Select(order: seq<string>, c: Collector): seq<string> {
    if order == [] then []
    else
      var n := |order| - 1;
      Select(order[..n], c) + if Serves(order[n]) == c then [order[n]] else []
  }

  function Paths(names: seq<string>): (p: seq<(string, string)>)
    ensures |p| == |names|
  {
    seq(|names|, i requires 0 <= i < |names| => (names[i], Path(names[i])))
  }

  function PerfNames(r: Routes): (p: seq<string>)
    ensures |p| == |r.perf|
  {
    seq(|r.perf|, i requires 0 <= i < |r.perf| => r.perf[i].0)
  }

  method TracefsPath(name: string) returns (path: string)
    ensures path == Slashed(StripSuffix(name))
  {
    path := StripSuffix(name);
    ghost var base := path;
    var i := 0;
    while i < |path|
      invariant 0 <= i <= |path| == |base|
      invariant forall k :: 0 <= k < i ==> path[k] == if base[k] == ':' then '/' else base[k]
      invariant forall k :: i <= k < |path| ==> path[k] == base[k]
    {
      if path[i] == ':' {
        path := path[i := '/'];
      }
      i := i + 1;
    }
  }

  method RouteFeatures(order: seq<string>) returns (r: Routes)
    ensures r == Routes(Paths(Select(order, Perf)), Select(order, Disk), Select(order, Resource))
  {
    r := Routes([], [], []);
    var i := 0;
    while i < |order|
      invariant 0 <= i <= |order|
      invariant r.perf == Paths(Select(order[..i], Perf))
      invariant r.disk == Select(order[..i], Disk)
      invariant r.resource == Select(order[..i], Resource)
    {
      var name := order[i];
      assert order[..i + 1][..i] == order[..i];
      if ':' in name {
        var path := TracefsPath(name);
        r := r.(perf := r.perf + [(name, path)]);
      } else if name in DISK {
        r := r.(disk := r.disk + [name]);
      } else if name in RESOURCE {
        r := r.(resource := r.resource + [name]);
      } else {
        r := r.(perf := r.perf + [(name, "syscalls/sys_enter_" + name)]);
      }
      i := i + 1;
    }
    assert order[..|order|] == order;
  }

  // ---- properties ----

  lemma {:induction false} SelectCount(order: seq<string>, c: Collector, name: string)
    ensures multiset(Select(order, c))[name] == if Serves(name) == c then multiset(order)[name] else 0
  {
    if order != [] {
      var n := |order| - 1;
      SelectCount(order[..n], c, name);
      assert order == order[..n] + [order[n]];
    }
  }

  /** The three lists hold exactly the names of the order list, each as often as it does. */
  lemma RoutesPartition(order: seq<string>)
    ensures multiset(Select(order, Perf)) + multiset(Select(order, Disk)) + multiset(Select(order, Resource)) == multiset(order)
  {
    var all := multiset(Select(order, Perf)) + multiset(Select(order, Disk)) + multiset(Select(order, Resource));
    forall name: string
      ensures all[name] == multiset(order)[name]
    {
      SelectCount(order, Perf, name);
      SelectCount(order, Disk, name);
      SelectCount(order, Resource, name);
    }
  }

  lemma {:induction false} SelectServes(order: seq<string>, c: Collector, name: string)
    ensures name in Select(order, c) <==> name in order && Serves(name) == c
  {
    if order != [] {
      var n := |order| - 1;
      SelectServes(order[..n], c, name);
      assert order == order[..n] + [order[n]];
    }
  }

  /** Selected names keep the order they had. */
  lemma {:induction false} SelectKeepsOrder(order: seq<string>, c: Collector, i: nat, j: nat) returns (p: nat, q: nat)
    requires i < j < |Select(order, c)|
    ensures p < q < |order| && order[p] == Select(order, c)[i] && order[q] == Select(order, c)[j]
  {
    var n := |order| - 1;
    if j < |Select(order[..n], c)| {
      p, q := SelectKeepsOrder(order[..n], c, i, j);
    } else {
      p := SelectHasSource(order[..n], c, i);
      q := n;
    }
  }

  lemma {:induction false} SelectHasSource(order: seq<string>, c: Collector, i: nat) returns (p: nat)
    requires i < |Select(order, c)|
    ensures p < |order| && order[p] == Select(order, c)[i]
  {
    var n := |order| - 1;
    if i < |Select(order[..n], c)| {
      p := SelectHasSource(order[..n], c, i);
    } else {
      p := n;
    }
  }

  predicate Distinct(names: seq<string>) {
    forall i, j :: 0 <= i < j < |names| ==> names[i] != names[j]
  }

  lemma SelectDistinct(order: seq<string>, c: Collector)
    requires Distinct(order)
    ensures Distinct(Select(order, c))
  {
    forall i, j | 0 <= i < j < |Select(order, c)|
      ensures Select(order, c)[i] != Select(order, c)[j]
    {
      var p, q := SelectKeepsOrder(order, c, i, j);
    }
  }

  /** No path handed to the tracepoint collector has a colon left. */
  lemma PathHasNoColon(name: string)
    ensures ':' !in Path(name)
  {
  }

  lemma PerfPathsHaveNoColon(order: seq<string>, i: nat)
    requires i < |Paths(Select(order, Perf))|
    ensures ':' !in Paths(Select(order, Perf))[i].1
  {
    PathHasNoColon(Select(order, Perf)[i]);
  }

  lemma SlashedJoin(a: string, b: string)
    requires ':' !in a && ':' !in b
    ensures Slashed(a + ":" + b) == a + "/" + b
  {
  }

  /** A name that does not properly end with either suffix is left alone. */
  lemma NothingStripped(name: string)
    requires !EndsWith(name, "_KERN_data") && !EndsWith(name, "_RES_data")
    ensures StripSuffix(name) == name
  {
  }

  /** A string and its suffix have the same d-th character from the end. */
  lemma FromEnd(s: string, suffix: string, d: nat)
    requires EndsWith(s, suffix) && 0 < d <= |suffix|
    ensures d <= |s| && s[|s| - d] == suffix[|suffix| - d]
  {
  }

  lemma SuffixesDiffer(name: string)
    requires EndsWith(name, "_RES_data")
    ensures !EndsWith(name, "_KERN_data")
  {
    FromEnd(name, "_RES_data", 6);
    if EndsWith(name, "_KERN_data") {
      FromEnd(name, "_KERN_data", 6);
    }
  }

  lemma KernelStripped(name: string)
    requires |name| > 10 && EndsWith(name, "_KERN_data")
    ensures StripSuffix(name) == name[..|name| - 10]
  {
  }

  lemma ResourceStripped(name: string)
    requires |name| > 9 && EndsWith(name, "_RES_data") && !EndsWith(name, "_KERN_data")
    ensures StripSuffix(name) == name[..|name| - 9]
  {
  }

  lemma EndOfConcat(base: string, suffix: string)
    ensures EndsWith(base + suffix, suffix) && (base + suffix)[..|base|] == base
  {
  }

  lemma SuffixStripped(base: string, suffix: string)
    requires base != "" && (suffix == "_KERN_data" || suffix == "_RES_data")
    ensures StripSuffix(base + suffix) == base
  {
    EndOfConcat(base, suffix);
    if suffix == "_KERN_data" {
      KernelStripped(base + suffix);
    } else {
      SuffixesDiffer(base + suffix);
      ResourceStripped(base + suffix);
    }
  }

  lemma EndOfJoin(a: string, b: string, suffix: string)
    requires ':' !in suffix && EndsWith(a + ":" + b, suffix)
    ensures EndsWith(b, suffix)
  {
    var s := a + ":" + b;
    if |suffix| > |b| {
      FromEnd(s, suffix, |b| + 1);
    }
    assert |suffix| <= |b| ==> s[|s| - |suffix|..] == b[|b| - |suffix|..];
  }

  lemma NoSuffix(a: string, b: string, suffix: string)
    requires ':' !in suffix && !EndsWith(b, suffix)
    ensures !EndsWith(a + ":" + b, suffix)
  {
    if EndsWith(a + ":" + b, suffix) {
      EndOfJoin(a, b, suffix);
    }
  }

  /** The file of a tracepoint is its subsystem's, with the dataset's suffix gone; a name without a colon is a system call's. */
  lemma PathOfTracepoint(subsystem: string, event: string, suffix: string)
    requires ':' !in subsystem && ':' !in event
    requires suffix in {"", "_KERN_data", "_RES_data"}
    requires suffix == "" ==> !EndsWith(event, "_KERN_data") && !EndsWith(event, "_RES_data")
    ensures Path(subsystem + ":" + event + suffix) == subsystem + "/" + event
    ensures Path(event) == "syscalls/sys_enter_" + event
  {
    var base := subsystem + ":" + event;
    assert base[|subsystem|] == ':' && (base + suffix)[|subsystem|] == ':';
    if suffix == "" {
      assert base + suffix == base;
      NoSuffix(subsystem, event, "_KERN_data");
      NoSuffix(subsystem, event, "_RES_data");
      NothingStripped(base);
    } else {
      SuffixStripped(base, suffix);
    }
    SlashedJoin(subsystem, event);
  }
}
