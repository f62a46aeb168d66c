/**
 * The low-memory listener-log filter: the log is read line by line, lines
 * are buffered until one of them contains `</msg>`, and the buffered lines
 * joined form one fragment, which is filtered and printed. The buffer is
 * cleared after every fragment, whatever became of it.
 */
module ListenerLowMemory {
  import opened Wrappers
  import opened Text
  import opened ListenerMsg

  /** The end tag that closes a fragment. */
  const CloseTag: string := "</msg>"

  predicate Closes(line: string)
  {
    Contains(line, CloseTag)
  }

  /** The lines of the fragments completed so far, and the lines buffered
      since the last one. */
  datatype Framing = Framing(groups: seq<seq<string>>, buffer: seq<string>)

  /** Reading one more line. */
  function Feed(f: Framing, line: string): Framing
  {
    var buf := f.buffer + [line];
    if Closes(line) then Framing(f.groups + [buf], []) else Framing(f.groups, buf)
  }

  /** The framing of the lines read so far. */
  function Frames(lines: seq<string>): Framing
    decreases |lines|
  {
    if |lines| == 0 then Framing([], []) else Feed(Frames(lines[..|lines| - 1]), lines[|lines| - 1])
  }

  /** The fragments handed to parsing: each group of lines joined. */
  function Fragments(lines: seq<string>): (r: seq<string>)
    ensures |r| == |Frames(lines).groups|
  {
    var gs := Frames(lines).groups;
    seq(|gs|, k requires 0 <= k < |gs| => Concat(gs[k]))
  }

  /** Every group ends with its only line that contains the end tag, and no
      buffered line contains it. */
  predicate WellFramed(f: Framing)
  {
    && (forall k :: 0 <= k < |f.groups| ==> |f.groups[k]| > 0 && Closes(f.groups[k][|f.groups[k]| - 1]))
    && (forall k, j :: 0 <= k < |f.groups| && 0 <= j < |f.groups[k]| - 1 ==> !Closes(f.groups[k][j]))
    && (forall j :: 0 <= j < |f.buffer| ==> !Closes(f.buffer[j]))
  }

  /** Every fragment is a run of lines whose last line, and only that one,
      contains the end tag; no buffered line contains it. */
  lemma {:induction false} FramesWellFormed(lines: seq<string>)
    decreases |lines|
    ensures WellFramed(Frames(lines))
  {
    if |lines| > 0 {
      var init, line := lines[..|lines| - 1], lines[|lines| - 1];
      FramesWellFormed(init);
      var f := Frames(init);
      if Closes(line) {
        var g := f.buffer + [line];
        var gs := f.groups + [g];
        assert Frames(lines) == Framing(gs, []);
        forall k, j | 0 <= k < |gs| && 0 <= j < |gs[k]| - 1 ensures !Closes(gs[k][j]) {
          if k < |f.groups| { assert gs[k] == f.groups[k]; } else { assert gs[k][j] == f.buffer[j]; }
        }
        forall k | 0 <= k < |gs| ensures |gs[k]| > 0 && Closes(gs[k][|gs[k]| - 1]) {
          if k < |f.groups| { assert gs[k] == f.groups[k]; }
        }
      } else {
        var buf := f.buffer + [line];
        assert Frames(lines) == Framing(f.groups, buf);
        forall j | 0 <= j < |buf| ensures !Closes(buf[j]) {
          if j < |f.buffer| { assert buf[j] == f.buffer[j]; }
        }
      }
    }
  }

  /** The lines of the fragments followed by the buffered lines are exactly
      the lines read. */
  lemma {:induction false} FramesCoverLines(lines: seq<string>)
    decreases |lines|
    ensures Flatten(Frames(lines).groups) + Frames(lines).buffer == lines
  {
    if |lines| > 0 {
      var init, line := lines[..|lines| - 1], lines[|lines| - 1];
      FramesCoverLines(init);
      var f := Frames(init);
      assert lines == init + [line];
      if Closes(line) {
        var g := f.buffer + [line];
        assert (f.groups + [g])[..|f.groups|] == f.groups;
        assert Flatten(f.groups + [g]) == Flatten(f.groups) + g;
      }
    }
  }

  /** The fragments joined, then the buffered lines joined, give the text. */
  lemma FragmentsCoverText(lines: seq<string>)
    ensures Concat(Fragments(lines)) + Concat(Frames(lines).buffer) == Concat(lines)
  {
    FramesCoverLines(lines);
    var f := Frames(lines);
    ConcatFlatten(f.groups);
    ConcatAppend(Flatten(f.groups), f.buffer);
  }

  lemma {:induction false} ConcatFlatten(gs: seq<seq<string>>)
    decreases |gs|
    ensures Concat(Flatten(gs)) == Concat(seq(|gs|, k requires 0 <= k < |gs| => Concat(gs[k])))
  {
    var joined := seq(|gs|, k requires 0 <= k < |gs| => Concat(gs[k]));
    if |gs| > 0 {
      var init := gs[..|gs| - 1];
      ConcatFlatten(init);
      ConcatAppend(Flatten(init), gs[|gs| - 1]);
      assert joined[..|gs| - 1] == seq(|init|, k requires 0 <= k < |init| => Concat(init[k]));
    }
  }

  /** Reading one more line adds a fragment exactly when it closes one. */
  lemma FragmentsSnoc(lines: seq<string>, line: string)
    ensures Fragments(lines + [line]) ==
      if Closes(line) then Fragments(lines) + [Concat(Frames(lines).buffer + [line])] else Fragments(lines)
    ensures Frames(lines + [line]).buffer == if Closes(line) then [] else Frames(lines).buffer + [line]
  {
    assert (lines + [line])[..|lines|] == lines;
  }

  /** Reading line `i` after the lines before it. */
  lemma FramesStep(lines: seq<string>, i: nat)
    requires i < |lines|
    ensures Frames(lines[..i + 1]).buffer == if Closes(lines[i]) then [] else Frames(lines[..i]).buffer + [lines[i]]
    ensures Fragments(lines[..i + 1]) ==
      if Closes(lines[i]) then Fragments(lines[..i]) + [Concat(Frames(lines[..i]).buffer + [lines[i]])]
      else Fragments(lines[..i])
  {
    assert lines[..i + 1] == lines[..i] + [lines[i]];
    FragmentsSnoc(lines[..i], lines[i]);
  }

  /** The fragments of a prefix of the lines are a prefix of the fragments. */
  lemma {:induction false} FramesPrefix(lines: seq<string>, n: nat)
    requires n <= |lines|
    decreases |lines|
    ensures |Fragments(lines[..n])| <= |Fragments(lines)|
    ensures Fragments(lines[..n]) == Fragments(lines)[..|Fragments(lines[..n])|]
  {
    if n < |lines| {
      var init := lines[..|lines| - 1];
      FramesPrefix(init, n);
      PrefixOfPrefix(lines, |lines| - 1, n);
      FragmentsSnoc(init, lines[|lines| - 1]);
      DropLast(lines);
    } else {
      PrefixWhole(lines);
    }
  }

  /** Lines after the last line that contains the end tag are only ever
      buffered: they add no fragment. */
  lemma {:induction false} TrailingLinesIgnored(lines: seq<string>, tail: seq<string>)
    requires forall j :: 0 <= j < |tail| ==> !Closes(tail[j])
    decreases |tail|
    ensures Fragments(lines + tail) == Fragments(lines)
    ensures Frames(lines + tail).buffer == Frames(lines).buffer + tail
  {
    if |tail| > 0 {
      var init := tail[..|tail| - 1];
      var last := tail[|tail| - 1];
      TrailingLinesIgnored(lines, init);
      AppendLast(lines, tail);
      FragmentsSnoc(lines + init, last);
      DropLast(tail);
      var b := Frames(lines).buffer;
      assert (b + init) + [last] == b + (init + [last]);
    } else {
      assert lines + tail == lines;
    }
  }

  /** `print_msgs_from_xml`: reads the lines one at a time and handles each
      fragment as soon as its last line is read. */
  method PrintMsgsFromXml(lines: seq<string>, cfg: Config, libs: Libraries) returns (out: seq<string>, crashed: bool)
    ensures Report(out, crashed) == FilterAll(Fragments(lines), cfg, libs)
  {
    var buffer: seq<string> := [];
    out, crashed := [], false;
    var i := 0;
    ghost var frags: seq<string> := [];
    while i < |lines| && !crashed
      invariant 0 <= i <= |lines|
      invariant buffer == Frames(lines[..i]).buffer
      invariant frags == Fragments(lines[..i])
      invariant Report(out, crashed) == FilterAll(frags, cfg, libs)
    {
      var line := lines[i];
      FramesStep(lines, i);
      buffer := buffer + [line];
      if Closes(line) {
        var content := Concat(buffer);
        FilterAllSnoc(frags, content, cfg, libs);
        match HandleFragment(content, cfg, libs) {
          case Printed(text) => out := out + [text];
          case Skipped =>
          case Crashed => crashed := true;
        }
        frags := frags + [content];
        buffer := [];
      }
      i := i + 1;
    }
    if crashed {
      FramesPrefix(lines, i);
      var all := Fragments(lines);
      var m := |Fragments(lines[..i])|;
      OutcomesPrefix(all, m, cfg, libs);
      CollectCrashAbsorbs(Outcomes(all, cfg, libs), m);
    } else {
      assert lines[..i] == lines;
    }
  }

  /** The host address of a fragment, when it parses and has a non-empty one. */
  function HostOf(frag: string, libs: Libraries): (r: Option<string>)
    ensures r.Some? <==> libs.fromString(frag).Parsed? && Truthy(Get(libs.fromString(frag).root.attrs, "host_addr"))
    ensures r.Some? ==> r == Get(libs.fromString(frag).root.attrs, "host_addr")
  {
    match libs.fromString(frag)
    case SyntaxError => None
    case Parsed(root) =>
      var h := Get(root.attrs, "host_addr");
      if Truthy(h) then h else None
  }

  /** The host addresses of the fragments. */
  function HostsIn(frags: seq<string>, libs: Libraries): set<string>
  {
    set k | 0 <= k < |frags| && HostOf(frags[k], libs).Some? :: HostOf(frags[k], libs).value
  }

  lemma HostsInSnoc(frags: seq<string>, frag: string, libs: Libraries)
    ensures HostsIn(frags + [frag], libs) ==
      HostsIn(frags, libs) + (if HostOf(frag, libs).Some? then {HostOf(frag, libs).value} else {})
  {
    var all := frags + [frag];
    forall h | h in HostsIn(all, libs) ensures h in HostsIn(frags, libs) || HostOf(frag, libs) == Some(h) {
      var k :| 0 <= k < |all| && HostOf(all[k], libs) == Some(h);
      if k < |frags| { assert all[k] == frags[k]; }
    }
    forall h | h in HostsIn(frags, libs) ensures h in HostsIn(all, libs) {
      var k :| 0 <= k < |frags| && HostOf(frags[k], libs) == Some(h);
      assert all[k] == frags[k];
    }
    if HostOf(frag, libs).Some? {
      assert all[|frags|] == frag;
    }
  }

  /** `list_unique_host_addrs`: every non-empty host address of a fragment
      that parses, once each, in sorted order. */
  method ListUniqueHostAddrs(lines: seq<string>, libs: Libraries) returns (hosts: seq<string>)
    ensures StrictlySorted(hosts)
    ensures forall h :: h in hosts <==> h in HostsIn(Fragments(lines), libs)
  {
    var hostAddrs: set<string> := {};
    var buffer: seq<string> := [];
    var i := 0;
    ghost var frags: seq<string> := [];
    while i < |lines|
      invariant 0 <= i <= |lines|
      invariant buffer == Frames(lines[..i]).buffer
      invariant frags == Fragments(lines[..i])
      invariant hostAddrs == HostsIn(frags, libs)
    {
      var line := lines[i];
      FramesStep(lines, i);
      buffer := buffer + [line];
      if Closes(line) {
        var content := Concat(buffer);
        HostsInSnoc(frags, content, libs);
        var hostAddr := HostOf(content, libs);
        if hostAddr.Some? {
          hostAddrs := hostAddrs + {hostAddr.value};
        }
        frags := frags + [content];
        buffer := [];
      }
      i := i + 1;
    }
    assert lines[..i] == lines;
    hosts := SortedList(hostAddrs);
  }

  /** The command line, after argparse. */
  datatype Args = Args(filters: Filters, listHosts: bool, recentErrors: bool, errorHours: int)

  const DefaultErrorHours: int := 24

  /** `main`: `--error-hours` other than the default needs `--recent-errors`;
      `--list-hosts` wins over filtering; the filter runs with the window given. */
  function PlanRun(args: Args, now: int): (r: Result<Action>)
    ensures r.Err? <==> args.errorHours != DefaultErrorHours && !args.recentErrors
    ensures r.Ok? && args.listHosts ==> r.value == ListHosts
    ensures r.Ok? && !args.listHosts ==>
              r.value == PrintMessages(Config(args.filters, args.recentErrors, args.errorHours, now))
  {
    if args.errorHours != DefaultErrorHours && !args.recentErrors then
      Err("--error-hours requires --recent-errors to be specified.")
    else if args.listHosts then Ok(ListHosts)
    else if args.recentErrors then Ok(PrintMessages(Config(args.filters, true, args.errorHours, now)))
    else Ok(PrintMessages(Config(args.filters, false, DefaultErrorHours, now)))
  }

  /** The whole tool: the lines it prints and whether it stopped on an
      exception or a usage error. */
  method FilterLog(args: Args, now: int, lines: seq<string>, libs: Libraries) returns (out: seq<string>, failed: bool)
    ensures PlanRun(args, now).Err? ==> out == [PlanRun(args, now).message] && failed
    ensures PlanRun(args, now) == Ok(ListHosts) ==>
              !failed && StrictlySorted(out) && forall h :: h in out <==> h in HostsIn(Fragments(lines), libs)
    ensures PlanRun(args, now).Ok? && PlanRun(args, now).value.PrintMessages? ==>
              Report(out, failed) == FilterAll(Fragments(lines), PlanRun(args, now).value.cfg, libs)
  {
    match PlanRun(args, now) {
      case Err(message) =>
        out, failed := [message], true;
      case Ok(ListHosts) =>
        out := ListUniqueHostAddrs(lines, libs);
        failed := false;
      case Ok(PrintMessages(cfg)) =>
        out, failed := PrintMsgsFromXml(lines, cfg, libs);
    }
  }
}
