/**
 * The in-memory listener-log filter: the whole log is read as one string,
 * split on `<msg`, blank pieces are skipped, and every other piece, with
 * `<msg` put back in front, is one fragment. Only the host address and pid
 * filters exist here.
 */
module ListenerInMemory {
  import opened Wrappers
  import opened Text
  import opened ListenerMsg

  /** The text the log is split on, put back in front of every fragment. */
  const OpenTag: string := "<msg"

  /** The fragments made of the pieces, in order: a blank piece is skipped,
      any other is reopened with `<msg`. */
  function Reopen(pieces: seq<string>): (r: seq<string>)
    decreases |pieces|
    ensures |r| <= |pieces|
  {
    if |pieces| == 0 then []
    else
      var prev := Reopen(pieces[..|pieces| - 1]);
      var p := pieces[|pieces| - 1];
      if IsBlank(p) then prev else prev + [OpenTag + p]
  }

  /** Every fragment is `<msg` followed by a non-blank piece; every
      non-blank piece gives a fragment; and with no blank piece the
      fragments are exactly the pieces reopened, one for one. */
  lemma ReopenShape(pieces: seq<string>)
    ensures forall k :: 0 <= k < |Reopen(pieces)| ==>
              && |Reopen(pieces)[k]| >= |OpenTag| && Reopen(pieces)[k][..|OpenTag|] == OpenTag
              && !IsBlank(Reopen(pieces)[k][|OpenTag|..]) && Reopen(pieces)[k][|OpenTag|..] in pieces
    ensures forall p :: p in pieces && !IsBlank(p) ==> OpenTag + p in Reopen(pieces)
    ensures (forall k :: 0 <= k < |pieces| ==> !IsBlank(pieces[k])) ==>
              Reopen(pieces) == seq(|pieces|, k requires 0 <= k < |pieces| => OpenTag + pieces[k])
  {
    ReopenFragmentsShape(pieces);
    ReopenCoversPieces(pieces);
    if forall k :: 0 <= k < |pieces| ==> !IsBlank(pieces[k]) {
      ReopenOneForOne(pieces);
    }
  }

  lemma {:induction false} ReopenFragmentsShape(pieces: seq<string>)
    decreases |pieces|
    ensures forall k :: 0 <= k < |Reopen(pieces)| ==>
              && |Reopen(pieces)[k]| >= |OpenTag| && Reopen(pieces)[k][..|OpenTag|] == OpenTag
              && !IsBlank(Reopen(pieces)[k][|OpenTag|..]) && Reopen(pieces)[k][|OpenTag|..] in pieces
  {
    if |pieces| > 0 {
      var init, p := pieces[..|pieces| - 1], pieces[|pieces| - 1];
      ReopenFragmentsShape(init);
      var prev := Reopen(init);
      var r := Reopen(pieces);
      forall k | 0 <= k < |r|
        ensures |r[k]| >= |OpenTag| && r[k][..|OpenTag|] == OpenTag
        ensures !IsBlank(r[k][|OpenTag|..]) && r[k][|OpenTag|..] in pieces
      {
        if k == |prev| {
          assert r[k] == OpenTag + p;
          assert r[k][|OpenTag|..] == p;
        } else {
          assert r[k] == prev[k];
          assert prev[k][|OpenTag|..] in init;
        }
      }
    }
  }

  lemma {:induction false} ReopenCoversPieces(pieces: seq<string>)
    decreases |pieces|
    ensures forall p :: p in pieces && !IsBlank(p) ==> OpenTag + p in Reopen(pieces)
  {
    if |pieces| > 0 {
      var init, p := pieces[..|pieces| - 1], pieces[|pieces| - 1];
      ReopenCoversPieces(init);
      assert forall q :: q in pieces ==> q in init || q == p;
    }
  }

  lemma {:induction false} ReopenOneForOne(pieces: seq<string>)
    requires forall k :: 0 <= k < |pieces| ==> !IsBlank(pieces[k])
    decreases |pieces|
    ensures Reopen(pieces) == seq(|pieces|, k requires 0 <= k < |pieces| => OpenTag + pieces[k])
  {
    if |pieces| > 0 {
      var init := pieces[..|pieces| - 1];
      ReopenOneForOne(init);
    }
  }

  /** The fragments of the log. */
  function Fragments(content: string): seq<string>
  {
    Reopen(Split(content, OpenTag))
  }

  /** The fragments of a prefix of the pieces are a prefix of the fragments. */
  lemma {:induction false} ReopenPrefix(pieces: seq<string>, n: nat)
    requires n <= |pieces|
    decreases |pieces|
    ensures |Reopen(pieces[..n])| <= |Reopen(pieces)|
    ensures Reopen(pieces[..n]) == Reopen(pieces)[..|Reopen(pieces[..n])|]
  {
    if n < |pieces| {
      var init := pieces[..|pieces| - 1];
      ReopenPrefix(init, n);
      assert init[..n] == pieces[..n];
    } else {
      assert pieces[..n] == pieces;
    }
  }

  lemma ReopenSnoc(pieces: seq<string>, p: string)
    ensures Reopen(pieces + [p]) == if IsBlank(p) then Reopen(pieces) else Reopen(pieces) + [OpenTag + p]
  {
    assert (pieces + [p])[..|pieces|] == pieces;
  }

  /** The two filters of this tool; the other fields are never filtered. */
  function InMemoryFilters(hostAddr: Option<string>, pid: Option<string>): (f: Filters)
    ensures forall m :: PassesFilters(f, m) <==> Admits(hostAddr, m.hostAddr) && Admits(pid, m.pid)
  {
    Filters(hostAddr, pid, None, None, None, None)
  }

  /** `print_msgs_from_xml`. */
  method PrintMsgsFromXml(content: string, cfg: Config, libs: Libraries) returns (out: seq<string>, crashed: bool)
    ensures Report(out, crashed) == FilterAll(Fragments(content), cfg, libs)
  {
    var pieces := Split(content, OpenTag);
    out, crashed := [], false;
    var i := 0;
    while i < |pieces| && !crashed
      invariant 0 <= i <= |pieces|
      invariant Report(out, crashed) == FilterAll(Reopen(pieces[..i]), cfg, libs)
    {
      var fragment := pieces[i];
      assert pieces[..i + 1] == pieces[..i] + [fragment];
      ReopenSnoc(pieces[..i], fragment);
      if !IsBlank(fragment) {
        var msgContent := OpenTag + fragment;
        FilterAllSnoc(Reopen(pieces[..i]), msgContent, cfg, libs);
        match HandleFragment(msgContent, cfg, libs) {
          case Printed(text) => out := out + [text];
          case Skipped =>
          case Crashed => crashed := true;
        }
      }
      i := i + 1;
    }
    if crashed {
      ReopenPrefix(pieces, i);
      var all := Reopen(pieces);
      var m := |Reopen(pieces[..i])|;
      OutcomesPrefix(all, m, cfg, libs);
      CollectCrashAbsorbs(Outcomes(all, cfg, libs), m);
    } else {
      assert pieces[..i] == pieces;
    }
  }

  /** `process_msg(...)` raises on this fragment (not a syntax error). */
  predicate RaisesOn(frag: string, libs: Libraries)
  {
    libs.fromString(frag).Parsed? && ProcessMsg(libs.fromString(frag).root, libs.strptime).Malformed?
  }

  /** The non-empty host address `process_msg` finds in a fragment. */
  function HostOfMsg(frag: string, libs: Libraries): (r: Option<string>)
    ensures r.Some? <==> MessageOf(frag, libs).Some? && Truthy(MessageOf(frag, libs).value.hostAddr)
    ensures r.Some? ==> r == MessageOf(frag, libs).value.hostAddr
  {
    match MessageOf(frag, libs)
    case None => None
    case Some(m) => if Truthy(m.hostAddr) then m.hostAddr else None
  }

  function HostsIn(frags: seq<string>, libs: Libraries): set<string>
  {
    set k | 0 <= k < |frags| && HostOfMsg(frags[k], libs).Some? :: HostOfMsg(frags[k], libs).value
  }

  lemma HostsInSnoc(frags: seq<string>, frag: string, libs: Libraries)
    ensures HostsIn(frags + [frag], libs) ==
      HostsIn(frags, libs) + (if HostOfMsg(frag, libs).Some? then {HostOfMsg(frag, libs).value} else {})
  {
    var all := frags + [frag];
    forall h | h in HostsIn(all, libs) ensures h in HostsIn(frags, libs) || HostOfMsg(frag, libs) == Some(h) {
      var k :| 0 <= k < |all| && HostOfMsg(all[k], libs) == Some(h);
      if k < |frags| { assert all[k] == frags[k]; }
    }
    forall h | h in HostsIn(frags, libs) ensures h in HostsIn(all, libs) {
      var k :| 0 <= k < |frags| && HostOfMsg(frags[k], libs) == Some(h);
      assert all[k] == frags[k];
    }
    if HostOfMsg(frag, libs).Some? {
      assert all[|frags|] == frag;
    }
  }

  /** What the loop of `list_unique_host_addrs` does with one fragment:
      whether `process_msg` raises, and otherwise the host address found. */
  function ScanFragment(frag: string, libs: Libraries): (r: (bool, Option<string>))
    ensures r.0 == RaisesOn(frag, libs)
    ensures !r.0 ==> r.1 == HostOfMsg(frag, libs)
  {
    match libs.fromString(frag)
    case SyntaxError => (false, None)
    case Parsed(root) =>
      match ProcessMsg(root, libs.strptime)
      case Malformed => (true, None)
      case Message(m) => (false, if Truthy(m.hostAddr) then m.hostAddr else None)
  }

  /** Some fragment makes `process_msg` raise. */
  predicate AnyRaises(frags: seq<string>, libs: Libraries)
  {
    exists k :: 0 <= k < |frags| && RaisesOn(frags[k], libs)
  }

  lemma AnyRaisesSnoc(frags: seq<string>, frag: string, libs: Libraries)
    ensures AnyRaises(frags + [frag], libs) <==> AnyRaises(frags, libs) || RaisesOn(frag, libs)
  {
    var all := frags + [frag];
    if AnyRaises(all, libs) {
      var k :| 0 <= k < |all| && RaisesOn(all[k], libs);
      if k < |frags| { assert all[k] == frags[k]; }
    }
    if AnyRaises(frags, libs) {
      var k :| 0 <= k < |frags| && RaisesOn(frags[k], libs);
      assert all[k] == frags[k];
    }
    if RaisesOn(frag, libs) { assert all[|frags|] == frag; }
  }

  lemma AnyRaisesPrefix(frags: seq<string>, n: nat, libs: Libraries)
    requires n <= |frags|
    requires AnyRaises(frags[..n], libs)
    ensures AnyRaises(frags, libs)
  {
    var k :| 0 <= k < n && RaisesOn(frags[..n][k], libs);
    assert frags[..n][k] == frags[k];
  }

  /** One step of the scan, in terms of what it sees of the new fragment. */
  lemma ScanStep(seen: seq<string>, frag: string, libs: Libraries)
    ensures AnyRaises(seen + [frag], libs) <==> AnyRaises(seen, libs) || ScanFragment(frag, libs).0
    ensures !ScanFragment(frag, libs).0 ==>
              HostsIn(seen + [frag], libs) == HostsIn(seen, libs) +
                (if ScanFragment(frag, libs).1.Some? then {ScanFragment(frag, libs).1.value} else {})
  {
    HostsInSnoc(seen, frag, libs);
    AnyRaisesSnoc(seen, frag, libs);
  }

  /** A crash in the fragments of a prefix of the pieces is a crash in
      the fragments of all of them. */
  lemma CrashInPrefix(pieces: seq<string>, i: nat, libs: Libraries)
    requires i <= |pieces|
    requires AnyRaises(Reopen(pieces[..i]), libs)
    ensures AnyRaises(Reopen(pieces), libs)
  {
    ReopenPrefix(pieces, i);
    AnyRaisesPrefix(Reopen(pieces), |Reopen(pieces[..i])|, libs);
  }

  /** `list_unique_host_addrs`: as in the low-memory tool, except that it
      goes through `process_msg`, so a fragment on which that raises ends
      the run before anything is printed. */
  method ListUniqueHostAddrs(content: string, libs: Libraries) returns (hosts: seq<string>, crashed: bool)
    ensures crashed <==> AnyRaises(Fragments(content), libs)
    ensures crashed ==> hosts == []
    ensures !crashed ==> StrictlySorted(hosts) && forall h :: h in hosts <==> h in HostsIn(Fragments(content), libs)
  {
    var hostAddrs: set<string> := {};
    var pieces := Split(content, OpenTag);
    crashed := false;
    var i := 0;
    ghost var seen: seq<string> := [];
    while i < |pieces| && !crashed
      invariant 0 <= i <= |pieces|
      invariant seen == Reopen(pieces[..i])
      invariant crashed <==> AnyRaises(seen, libs)
      invariant !crashed ==> hostAddrs == HostsIn(seen, libs)
    {
      var fragment := pieces[i];
      assert pieces[..i + 1] == pieces[..i] + [fragment];
      ReopenSnoc(pieces[..i], fragment);
      if !IsBlank(fragment) {
        var msgContent := OpenTag + fragment;
        ScanStep(seen, msgContent, libs);
        var (raises, host) := ScanFragment(msgContent, libs);
        if raises {
          crashed := true;
        } else if host.Some? {
          hostAddrs := hostAddrs + {host.value};
        }
        seen := seen + [msgContent];
      }
      i := i + 1;
    }
    if crashed {
      CrashInPrefix(pieces, i, libs);
      hosts := [];
    } else {
      assert pieces[..i] == pieces;
      hosts := SortedList(hostAddrs);
    }
  }

  /** The command line, after argparse. */
  datatype Args = Args(hostAddr: Option<string>, pid: Option<string>, listHosts: bool, recentErrors: bool, errorHours: int)

  const DefaultErrorHours: int := 24

  /** `main`: `--list-hosts` wins over filtering; without `--recent-errors`
      the filter runs with the default window, whatever `--error-hours` says. */
  function PlanRun(args: Args, now: int): (a: Action)
    ensures args.listHosts <==> a == ListHosts
    ensures a.PrintMessages? ==>
              && a.cfg.filters == InMemoryFilters(args.hostAddr, args.pid)
              && a.cfg.recentErrors == args.recentErrors
              && a.cfg.now == now
              && a.cfg.errorHours == (if args.recentErrors then args.errorHours else DefaultErrorHours)
  {
    if args.listHosts then ListHosts
    else if args.recentErrors then PrintMessages(Config(InMemoryFilters(args.hostAddr, args.pid), true, args.errorHours, now))
    else PrintMessages(Config(InMemoryFilters(args.hostAddr, args.pid), false, DefaultErrorHours, now))
  }

  /** Unlike the low-memory tool, this one accepts `--error-hours` without
      `--recent-errors` and ignores it. */
  lemma ErrorHoursIgnoredWithoutRecentErrors(args: Args, now: int, hours: int)
    requires !args.recentErrors
    ensures PlanRun(args, now) == PlanRun(args.(errorHours := hours), now)
  {
  }

  /** The whole tool: the lines it prints and whether an exception ended it. */
  method FilterLog(args: Args, now: int, content: string, libs: Libraries) returns (out: seq<string>, crashed: bool)
    ensures PlanRun(args, now) == ListHosts ==>
              (crashed <==> AnyRaises(Fragments(content), libs))
              && (crashed ==> out == [])
              && (!crashed ==> StrictlySorted(out) && forall h :: h in out <==> h in HostsIn(Fragments(content), libs))
    ensures PlanRun(args, now).PrintMessages? ==>
              Report(out, crashed) == FilterAll(Fragments(content), PlanRun(args, now).cfg, libs)
  {
    match PlanRun(args, now) {
      case ListHosts =>
        out, crashed := ListUniqueHostAddrs(content, libs);
      case PrintMessages(cfg) =>
        out, crashed := PrintMsgsFromXml(content, cfg, libs);
    }
  }
}
