/**
 * What both listener-log filters do with one `<msg ...>...</msg>` fragment:
 * parse it (the XML library is a parameter), extract its fields
 * (`process_msg`), apply the exact-match field filters and the
 * recent-error filter, and render the printed line.
 */
module ListenerMsg {
  import opened Wrappers
  import opened Text

  /** A `time` attribute as `datetime.strptime` parsed it: an instant in
      seconds, and the text Python prints for that datetime. */
  datatype LogTime = LogTime(seconds: int, shown: string)

  /** The `<txt>` child of a message: absent, or present with its text
      (`None` for an empty element). */
  datatype TxtChild = NoTxt | Txt(text: Option<string>)

  /** The root element of a parsed fragment: its attributes and its `<txt>`. */
  datatype Element = Element(attrs: map<string, string>, txt: TxtChild)

  /** What lxml's `fromstring` makes of a fragment. */
  datatype XmlResult = SyntaxError | Parsed(root: Element)

  /** The foreign calls: lxml's `fromstring`, and `datetime.strptime` with
      the format `%Y-%m-%dT%H:%M:%S` (`None` where it raises ValueError). */
  datatype Libraries = Libraries(fromString: string -> XmlResult, strptime: string -> Option<LogTime>)

  /** The fields `process_msg` returns. */
  datatype Msg = Msg(
    time: Option<LogTime>, hostAddr: Option<string>, pid: Option<string>, txt: Option<string>,
    orgId: Option<string>, compId: Option<string>, msgType: Option<string>,
    level: Option<string>, hostId: Option<string>)

  /** `process_msg` either returns the fields or raises an exception other
      than a syntax error (AttributeError), which nothing catches. */
  datatype Processed = Malformed | Message(msg: Msg)

  /** Element.get(key). */
  function Get(attrs: map<string, string>, key: string): Option<string>
  {
    if key in attrs then Some(attrs[key]) else None
  }

  /** `time_str.split('.')[0]`: the time text up to its first '.'. */
  function TimePrefix(s: string): (r: string)
    ensures |r| <= |s| && r == s[..|r|]
    ensures forall k :: 0 <= k < |r| ==> r[k] != '.'
    ensures |r| < |s| ==> s[|r|] == '.'
  {
    var i := IndexFrom(s, ".", 0);
    assert forall k :: 0 <= k < |s| && s[k] == '.' ==> IsMatchAt(s, ".", k) by {
      forall k | 0 <= k < |s| && s[k] == '.' ensures IsMatchAt(s, ".", k) {
        assert s[k..k + 1] == [s[k]];
      }
    }
    Split(s, ".")[0]
  }

  /** `process_msg`: a missing `<txt>` child or a missing `time` attribute
      raises; an unparseable time becomes `None`. */
  function ProcessMsg(root: Element, strptime: string -> Option<LogTime>): (r: Processed)
    ensures r.Malformed? <==> root.txt.NoTxt? || "time" !in root.attrs
    ensures r.Message? ==> (
              && r.msg.txt == root.txt.text
              && r.msg.time == strptime(TimePrefix(root.attrs["time"]))
              && r.msg.hostAddr == Get(root.attrs, "host_addr")
              && r.msg.pid == Get(root.attrs, "pid")
              && r.msg.orgId == Get(root.attrs, "org_id")
              && r.msg.compId == Get(root.attrs, "comp_id")
              && r.msg.msgType == Get(root.attrs, "type")
              && r.msg.level == Get(root.attrs, "level")
              && r.msg.hostId == Get(root.attrs, "host_id"))
  {
    match root.txt
    case NoTxt => Malformed
    case Txt(text) =>
      match Get(root.attrs, "time")
      case None => Malformed
      case Some(ts) =>
        var a := root.attrs;
        Message(Msg(strptime(TimePrefix(ts)), Get(a, "host_addr"), Get(a, "pid"), text,
                    Get(a, "org_id"), Get(a, "comp_id"), Get(a, "type"), Get(a, "level"), Get(a, "host_id")))
  }

  /** `is_recent_error(log_time, hours)` at the instant `now` (seconds). */
  predicate IsRecentError(logTime: Option<LogTime>, now: int, hours: int)
  {
    logTime.Some? && now - logTime.value.seconds <= hours * 3600
  }

  /** A missing time is never recent; otherwise recent means no more than
      `hours` hours before `now`, and a wider window keeps it recent. */
  lemma IsRecentErrorMeaning(logTime: Option<LogTime>, now: int, hours: int, wider: int)
    ensures logTime.None? ==> !IsRecentError(logTime, now, hours)
    ensures logTime.Some? ==> (IsRecentError(logTime, now, hours) <==> logTime.value.seconds >= now - 3600 * hours)
    ensures IsRecentError(logTime, now, hours) && hours <= wider ==> IsRecentError(logTime, now, wider)
  {
  }

  /** The field filters of the command line; `None` or "" impose nothing. */
  datatype Filters = Filters(
    hostAddr: Option<string>, pid: Option<string>, orgId: Option<string>,
    compId: Option<string>, msgType: Option<string>, hostId: Option<string>)

  /** `if f and field != f: continue` lets the message through. */
  predicate Admits(f: Option<string>, field: Option<string>)
  {
    !(Truthy(f) && field != f)
  }

  predicate PassesFilters(fs: Filters, m: Msg)
  {
    Admits(fs.hostAddr, m.hostAddr) && Admits(fs.pid, m.pid) && Admits(fs.orgId, m.orgId)
    && Admits(fs.compId, m.compId) && Admits(fs.msgType, m.msgType) && Admits(fs.hostId, m.hostId)
  }

  /** How one run filters: the field filters, the `--recent-errors` flag, its
      window in hours, and the clock reading in seconds. */
  datatype Config = Config(filters: Filters, recentErrors: bool, errorHours: int, now: int)

  /** The error text test of `--recent-errors`. */
  predicate HasErrorText(txt: string)
  {
    Contains(txt, "TNS-") || Contains(txt, "Error")
  }

  /** How an f-string shows an optional value. */
  function ShowOpt(o: Option<string>): string
  {
    match o
    case None => "None"
    case Some(s) => s
  }

  function ShowTime(t: Option<LogTime>): string
  {
    match t
    case None => "None"
    case Some(lt) => lt.shown
  }

  /** Everything of the printed line before the message text. */
  function FieldsPart(m: Msg): string
  {
    "time=" + ShowTime(m.time) + " org_id=" + ShowOpt(m.orgId) + " comp_id=" + ShowOpt(m.compId)
    + " type=" + ShowOpt(m.msgType) + " level=" + ShowOpt(m.level) + " host_id=" + ShowOpt(m.hostId)
    + " host_addr=" + ShowOpt(m.hostAddr) + " pid=" + ShowOpt(m.pid) + " "
  }

  /** The printed line: the fields, then the text with newlines made spaces. */
  function Render(m: Msg, txt: string): (r: string)
    ensures |r| == |FieldsPart(m)| + |txt| && r[..|FieldsPart(m)|] == FieldsPart(m)
    ensures forall i :: 0 <= i < |txt| ==> r[|FieldsPart(m)| + i] == (if txt[i] == '\n' then ' ' else txt[i])
  {
    var head := FieldsPart(m);
    var r := head + ReplaceNewlines(txt);
    assert forall i :: 0 <= i < |txt| ==> r[|head| + i] == ReplaceNewlines(txt)[i];
    r
  }

  /** What `main` goes on to do: list the host addresses, or filter. */
  datatype Action = ListHosts | PrintMessages(cfg: Config)

  /** What happens to one fragment. */
  datatype Outcome = Skipped | Printed(line: string) | Crashed

  /** The message a fragment holds, if it parses and `process_msg` succeeds. */
  function MessageOf(frag: string, libs: Libraries): Option<Msg>
  {
    match libs.fromString(frag)
    case SyntaxError => None
    case Parsed(root) =>
      match ProcessMsg(root, libs.strptime)
      case Malformed => None
      case Message(m) => Some(m)
  }

  /** The message is let through to printing. */
  predicate Selected(m: Msg, cfg: Config)
  {
    && PassesFilters(cfg.filters, m)
    && m.txt.Some?
    && (cfg.recentErrors ==> HasErrorText(m.txt.value) && IsRecentError(m.time, cfg.now, cfg.errorHours))
  }

  /** The body of the loop over fragments in `print_msgs_from_xml`. */
  function HandleFragment(frag: string, cfg: Config, libs: Libraries): (r: Outcome)
    ensures libs.fromString(frag).SyntaxError? ==> r == Skipped
    ensures r.Printed? <==> MessageOf(frag, libs).Some? && Selected(MessageOf(frag, libs).value, cfg)
    ensures r.Printed? ==> r.line == Render(MessageOf(frag, libs).value, MessageOf(frag, libs).value.txt.value)
    ensures r.Crashed? <==> (
              && libs.fromString(frag).Parsed?
              && (|| MessageOf(frag, libs).None?
                  || (PassesFilters(cfg.filters, MessageOf(frag, libs).value) && MessageOf(frag, libs).value.txt.None?)))
  {
    match libs.fromString(frag)
    case SyntaxError => Skipped
    case Parsed(root) =>
      match ProcessMsg(root, libs.strptime)
      case Malformed => Crashed
      case Message(m) =>
        if !PassesFilters(cfg.filters, m) then Skipped
        // with `None` text, `"TNS-" not in txt` or `txt.replace` raises
        else if m.txt.None? then Crashed
        else if cfg.recentErrors && !HasErrorText(m.txt.value) then Skipped
        else if cfg.recentErrors && !IsRecentError(m.time, cfg.now, cfg.errorHours) then Skipped
        else Printed(Render(m, m.txt.value))
  }

  function Emit(rep: Report, o: Outcome): Report
  {
    match o
    case Skipped => rep
    case Printed(line) => Report(rep.out + [line], false)
    case Crashed => Report(rep.out, true)
  }

  /** The loop over the outcomes of the fragments, in order; an exception
      stops it. */
  function Collect(os: seq<Outcome>): Report
    decreases |os|
  {
    if |os| == 0 then Report([], false)
    else
      var prev := Collect(os[..|os| - 1]);
      if prev.crashed then prev else Emit(prev, os[|os| - 1])
  }

  /** The outcome of each fragment. */
  function Outcomes(frags: seq<string>, cfg: Config, libs: Libraries): (os: seq<Outcome>)
    ensures |os| == |frags|
  {
    seq(|frags|, k requires 0 <= k < |frags| => HandleFragment(frags[k], cfg, libs))
  }

  /** The output of handling the fragments in order. */
  function FilterAll(frags: seq<string>, cfg: Config, libs: Libraries): Report
  {
    Collect(Outcomes(frags, cfg, libs))
  }

  /** The printed lines among the outcomes, taking no exception into account. */
  function PrintedLines(os: seq<Outcome>): seq<string>
    decreases |os|
  {
    if |os| == 0 then []
    else
      var prev := PrintedLines(os[..|os| - 1]);
      match os[|os| - 1]
      case Printed(line) => prev + [line]
      case _ => prev
  }

  /** The position of the first outcome that is an exception, or `|os|`. */
  function FirstCrash(os: seq<Outcome>): (n: nat)
    decreases |os|
    ensures n <= |os|
    ensures forall i :: 0 <= i < n ==> !os[i].Crashed?
    ensures n < |os| ==> os[n].Crashed?
  {
    if |os| == 0 then 0
    else
      var n := FirstCrash(os[..|os| - 1]);
      if n < |os| - 1 then n
      else if os[|os| - 1].Crashed? then |os| - 1
      else |os|
  }

  /** The loop stops at the first exception (if any) and has then printed
      exactly the printed lines of the outcomes before it. */
  lemma {:induction false} CollectMeaning(os: seq<Outcome>)
    decreases |os|
    ensures Collect(os) == Report(PrintedLines(os[..FirstCrash(os)]), FirstCrash(os) < |os|)
  {
    if |os| > 0 {
      var init := os[..|os| - 1];
      CollectMeaning(init);
      var n := FirstCrash(init);
      if n < |init| {
        assert init[..n] == os[..n];
      } else {
        assert init[..n] == init;
        assert os[..|os|] == os;
      }
    }
  }

  /** Once a prefix of the outcomes holds an exception, the rest changes nothing. */
  lemma {:induction false} CollectCrashAbsorbs(os: seq<Outcome>, n: nat)
    requires n <= |os| && Collect(os[..n]).crashed
    decreases |os| - n
    ensures Collect(os) == Collect(os[..n])
  {
    if n < |os| {
      assert os[..n + 1][..n] == os[..n];
      CollectCrashAbsorbs(os, n + 1);
    } else {
      assert os[..n] == os;
    }
  }

  /** Handling one more fragment. */
  lemma FilterAllSnoc(frags: seq<string>, frag: string, cfg: Config, libs: Libraries)
    ensures Outcomes(frags + [frag], cfg, libs) == Outcomes(frags, cfg, libs) + [HandleFragment(frag, cfg, libs)]
    ensures FilterAll(frags + [frag], cfg, libs) ==
      var prev := FilterAll(frags, cfg, libs);
      if prev.crashed then prev else Emit(prev, HandleFragment(frag, cfg, libs))
  {
    var os := Outcomes(frags + [frag], cfg, libs);
    assert os == Outcomes(frags, cfg, libs) + [HandleFragment(frag, cfg, libs)];
    assert os[..|frags|] == Outcomes(frags, cfg, libs);
  }

  /** A prefix of the fragments gives a prefix of the outcomes. */
  lemma OutcomesPrefix(frags: seq<string>, n: nat, cfg: Config, libs: Libraries)
    requires n <= |frags|
    ensures Outcomes(frags[..n], cfg, libs) == Outcomes(frags, cfg, libs)[..n]
  {
  }
}
