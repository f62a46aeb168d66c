/**
 * The attention-log viewer. The log is a run of JSON objects, each closed
 * by `}` at the end of a line; the text is split on `}\n`, each piece gets
 * its `}` back and is decoded, and a record's entries are printed as
 * `key : value` lines according to the attention-type and urgency filters.
 */
module AttentionLog {
  import opened Wrappers
  import opened Text

  /** What the log is split on. */
  const RecordEnd: string := "}\n"

  /** Printed before anything else when no filter is given. */
  const Header: string := "Printing all attention log entries."

  /** A decoded record: its entries in key order. */
  type Record = seq<(string, string)>

  /** `json.loads`, abstracted: a record, or None where it raises. */
  type Decoder = string -> Option<Record>

  /** The two filters, after argparse has lower-cased and checked them. */
  datatype Filter = Filter(attentionType: Option<string>, urgency: Option<string>)

  const AttentionTypes: set<string> := {"error", "warning", "notification", "additional"}
  const Urgencies: set<string> := {"immediate", "soon", "deferrable", "info"}

  /** argparse's `type=str.lower` followed by its `choices` check; a value
      outside the choices is a usage error. */
  function ParseChoice(raw: Option<string>, choices: set<string>): (r: Result<Option<string>>)
    ensures raw.None? ==> r == Ok(None)
    ensures raw.Some? ==> (r.Ok? <==> Lower(raw.value) in choices)
    ensures r.Ok? && raw.Some? ==> r.value == Some(Lower(raw.value)) && r.value.value in choices
  {
    match raw
    case None => Ok(None)
    case Some(s) => if Lower(s) in choices then Ok(Some(Lower(s))) else Err("invalid choice: " + s)
  }

  /** The pieces that are processed: those before the first empty one. */
  function TakeUntilEmpty(pieces: seq<string>): (r: seq<string>)
    ensures |r| <= |pieces| && r == pieces[..|r|]
    ensures forall k :: 0 <= k < |r| ==> r[k] != ""
    ensures |r| < |pieces| ==> pieces[|r|] == ""
  {
    if |pieces| == 0 || pieces[0] == "" then [] else [pieces[0]] + TakeUntilEmpty(pieces[1..])
  }

  /** The text given to the decoder for one piece. */
  function Reclosed(piece: string): (r: string)
    ensures |r| == |piece| + 1 && r[..|piece|] == piece && r[|piece|] == '}'
  {
    piece + "}"
  }

  /** One printed entry. */
  function EntryLine(entry: (string, string)): string
  {
    entry.0 + " : " + entry.1
  }

  /** All the entries of a record, one line each, in key order. */
  function RecordLines(rec: Record): (r: seq<string>)
    ensures |r| == |rec|
    ensures forall k :: 0 <= k < |rec| ==> r[k] == EntryLine(rec[k])
  {
    seq(|rec|, k requires 0 <= k < |rec| => EntryLine(rec[k]))
  }

  function Keys(rec: Record): (r: seq<string>)
    ensures |r| == |rec| && forall k :: 0 <= k < |rec| ==> r[k] == rec[k].0
  {
    seq(|rec|, k requires 0 <= k < |rec| => rec[k].0)
  }

  function Values(rec: Record): (r: seq<string>)
    ensures |r| == |rec| && forall k :: 0 <= k < |rec| ==> r[k] == rec[k].1
  {
    seq(|rec|, k requires 0 <= k < |rec| => rec[k].1)
  }

  /** How many of `xs` equal `t` once lower-cased. */
  function CountMatching(xs: seq<string>, t: string): (n: nat)
    ensures n <= |xs|
    ensures n > 0 <==> AnyMatching(xs, t)
  {
    if |xs| == 0 then 0
    else
      var init := xs[..|xs| - 1];
      assert forall k :: 0 <= k < |init| ==> init[k] == xs[k];
      CountMatching(init, t) + (if Lower(xs[|xs| - 1]) == t then 1 else 0)
  }

  predicate AnyMatching(xs: seq<string>, t: string)
  {
    exists k :: 0 <= k < |xs| && Lower(xs[k]) == t
  }

  /** Two matching elements are counted twice. */
  lemma {:induction false} CountMatchingTwo(xs: seq<string>, t: string, i: nat, j: nat)
    requires i < j < |xs| && Lower(xs[i]) == t && Lower(xs[j]) == t
    ensures CountMatching(xs, t) >= 2
  {
    CountMatchingPrefix(xs, j + 1, t);
    var pre := xs[..j + 1];
    assert pre[..j][i] == xs[i];
    assert CountMatching(pre[..j], t) > 0;
    assert pre[j] == xs[j];
  }

  /** Extending a prefix by one element counts that element when it matches. */
  lemma CountMatchingStep(xs: seq<string>, j: nat, t: string)
    requires j < |xs|
    ensures CountMatching(xs[..j + 1], t) == CountMatching(xs[..j], t) + (if Lower(xs[j]) == t then 1 else 0)
  {
    assert xs[..j + 1][..j] == xs[..j];
  }

  /** A prefix never counts more. */
  lemma {:induction false} CountMatchingPrefix(xs: seq<string>, n: nat, t: string)
    requires n <= |xs|
    decreases |xs|
    ensures CountMatching(xs[..n], t) <= CountMatching(xs, t)
  {
    if n < |xs| {
      var init := xs[..|xs| - 1];
      CountMatchingPrefix(init, n, t);
      assert init[..n] == xs[..n];
    } else {
      assert xs[..n] == xs;
    }
  }

  predicate Given(o: Option<string>)
  {
    Truthy(o)
  }

  /** What one record prints under the filters. */
  function RecordOutput(rec: Record, f: Filter): (r: seq<string>)
  {
    var ty, urg := f.attentionType, f.urgency;
    if !Given(ty) && !Given(urg) then RecordLines(rec)
    else if Given(ty) && !Given(urg) then Repeat(RecordLines(rec), CountMatching(Keys(rec), ty.value))
    else if !Given(ty) && Given(urg) then Repeat(RecordLines(rec), CountMatching(Values(rec), urg.value))
    else if AnyMatching(Keys(rec), ty.value) && AnyMatching(Values(rec), urg.value) then RecordLines(rec)
    else []
  }

  /** With no filter every entry is printed once; with one filter the
      record is printed once per matching key (value), so at all exactly
      when one matches; with both it is printed once exactly when some key
      matches the type and some value matches the urgency. */
  lemma RecordOutputCases(rec: Record, f: Filter)
    ensures !Given(f.attentionType) && !Given(f.urgency) ==> RecordOutput(rec, f) == RecordLines(rec)
    ensures Given(f.attentionType) && !Given(f.urgency) ==>
              && |RecordOutput(rec, f)| == CountMatching(Keys(rec), f.attentionType.value) * |rec|
              && (|rec| > 0 ==> (|RecordOutput(rec, f)| > 0 <==> AnyMatching(Keys(rec), f.attentionType.value)))
    ensures !Given(f.attentionType) && Given(f.urgency) ==>
              && |RecordOutput(rec, f)| == CountMatching(Values(rec), f.urgency.value) * |rec|
              && (|rec| > 0 ==> (|RecordOutput(rec, f)| > 0 <==> AnyMatching(Values(rec), f.urgency.value)))
    ensures Given(f.attentionType) && Given(f.urgency) ==>
              RecordOutput(rec, f) ==
                if AnyMatching(Keys(rec), f.attentionType.value) && AnyMatching(Values(rec), f.urgency.value)
                then RecordLines(rec) else []
  {
  }

  /** A record with two keys of the requested type is printed (at least) twice. */
  lemma TypeFilterDuplicates(rec: Record, f: Filter, i: nat, j: nat)
    requires Given(f.attentionType) && !Given(f.urgency)
    requires i < j < |rec| && Lower(rec[i].0) == f.attentionType.value && Lower(rec[j].0) == f.attentionType.value
    ensures |RecordOutput(rec, f)| >= 2 * |rec|
    ensures RecordOutput(rec, f)[..2 * |rec|] == RecordLines(rec) + RecordLines(rec)
  {
    var n := CountMatching(Keys(rec), f.attentionType.value);
    CountMatchingTwo(Keys(rec), f.attentionType.value, i, j);
    RepeatPrefix(RecordLines(rec), n);
  }

  /** `s` repeated `n >= 2` times starts with two copies of `s`. */
  lemma {:induction false} RepeatPrefix(s: seq<string>, n: nat)
    requires n >= 2
    ensures |Repeat(s, n)| >= 2 * |s| && Repeat(s, n)[..2 * |s|] == s + s
  {
    if n == 2 {
      assert Repeat(s, 1) == s;
    } else {
      RepeatPrefix(s, n - 1);
      assert Repeat(s, n) == Repeat(s, n - 1) + s;
    }
  }

  /** The lines printed for one record, by the loops of the source. */
  method PrintRecord(rec: Record, f: Filter) returns (lines: seq<string>)
    ensures lines == RecordOutput(rec, f)
  {
    lines := [];
    var ty, urg := f.attentionType, f.urgency;
    if Given(ty) || Given(urg) {
      if Given(ty) && !Given(urg) {
        lines := PrintPerMatch(rec, Keys(rec), ty.value);
      }
      if Given(urg) && !Given(ty) {
        lines := PrintPerMatch(rec, Values(rec), urg.value);
      }
      if Given(ty) && Given(urg) {
        var typeMatchesKey := FindMatch(Keys(rec), ty.value);
        var urgencyMatchesValue := FindMatch(Values(rec), urg.value);
        if typeMatchesKey && urgencyMatchesValue {
          lines := PrintEntries(rec, lines);
        }
      }
    } else {
      lines := PrintEntries(rec, lines);
    }
  }

  /** The one-filter loops: all the entries, once for every key (value)
      that matches the filter. */
  method PrintPerMatch(rec: Record, xs: seq<string>, t: string) returns (lines: seq<string>)
    ensures lines == Repeat(RecordLines(rec), CountMatching(xs, t))
  {
    lines := [];
    for j := 0 to |xs|
      invariant lines == Repeat(RecordLines(rec), CountMatching(xs[..j], t))
    {
      CountMatchingStep(xs, j, t);
      if Lower(xs[j]) == t {
        lines := PrintEntries(rec, lines);
      }
    }
    assert xs[..|xs|] == xs;
  }

  /** The flag loops of the two-filter case. */
  method FindMatch(xs: seq<string>, t: string) returns (found: bool)
    ensures found <==> AnyMatching(xs, t)
  {
    found := false;
    for j := 0 to |xs|
      invariant found <==> AnyMatching(xs[..j], t)
    {
      if Lower(xs[j]) == t {
        found := true;
      }
      AnyMatchingSnoc(xs, j, t);
    }
    assert xs[..|xs|] == xs;
  }

  lemma AnyMatchingSnoc(xs: seq<string>, j: nat, t: string)
    requires j < |xs|
    ensures AnyMatching(xs[..j + 1], t) <==> AnyMatching(xs[..j], t) || Lower(xs[j]) == t
  {
    var pre := xs[..j + 1];
    if AnyMatching(pre, t) && Lower(xs[j]) != t {
      var k :| 0 <= k < |pre| && Lower(pre[k]) == t;
      assert xs[..j][k] == pre[k];
    }
    if AnyMatching(xs[..j], t) {
      var k :| 0 <= k < j && Lower(xs[..j][k]) == t;
      assert pre[k] == xs[..j][k];
    }
    if Lower(xs[j]) == t { assert pre[j] == xs[j]; }
  }

  /** The innermost loop: every entry of the record, appended to `lines`. */
  method PrintEntries(rec: Record, lines: seq<string>) returns (r: seq<string>)
    ensures r == lines + RecordLines(rec)
  {
    r := lines;
    for k := 0 to |rec|
      invariant r == lines + RecordLines(rec)[..k]
    {
      assert RecordLines(rec)[..k + 1] == RecordLines(rec)[..k] + [EntryLine(rec[k])];
      r := r + [EntryLine(rec[k])];
    }
    assert RecordLines(rec)[..|rec|] == RecordLines(rec);
  }

  /** The output after one more piece, given the output so far. */
  function Step(prev: Report, piece: string, f: Filter, decode: Decoder): (r: Report)
    ensures prev.crashed ==> r == prev
    ensures !prev.crashed ==> |prev.out| <= |r.out| && r.out[..|prev.out|] == prev.out
  {
    if prev.crashed then prev
    else match decode(Reclosed(piece))
      case None => Report(prev.out, true)
      case Some(rec) => Report(prev.out + RecordOutput(rec, f), false)
  }

  /** The output for a run of non-empty pieces, up to the first piece the
      decoder rejects. */
  function View(pieces: seq<string>, f: Filter, decode: Decoder): (r: Report)
  {
    if |pieces| == 0 then Report([], false)
    else Step(View(pieces[..|pieces| - 1], f, decode), pieces[|pieces| - 1], f, decode)
  }

  /** Once a decode has failed, later pieces change nothing. */
  lemma {:induction false} ViewCrashAbsorbs(pieces: seq<string>, n: nat, f: Filter, decode: Decoder)
    requires n <= |pieces| && View(pieces[..n], f, decode).crashed
    decreases |pieces|
    ensures View(pieces, f, decode) == View(pieces[..n], f, decode)
  {
    if n < |pieces| {
      var init := pieces[..|pieces| - 1];
      assert init[..n] == pieces[..n];
      ViewCrashAbsorbs(init, n, f, decode);
    } else {
      assert pieces[..n] == pieces;
    }
  }

  /** When every piece decodes, the output is each record's output in turn. */
  lemma {:induction false} ViewAllDecoded(pieces: seq<string>, recs: seq<Record>, f: Filter, decode: Decoder)
    requires |recs| == |pieces|
    requires forall k :: 0 <= k < |pieces| ==> decode(Reclosed(pieces[k])) == Some(recs[k])
    ensures View(pieces, f, decode) ==
              Report(Flatten(seq(|recs|, k requires 0 <= k < |recs| => RecordOutput(recs[k], f))), false)
  {
    if |pieces| > 0 {
      var n := |pieces| - 1;
      ViewAllDecoded(pieces[..n], recs[..n], f, decode);
      var outs := seq(|recs|, k requires 0 <= k < |recs| => RecordOutput(recs[k], f));
      assert outs[..n] == seq(n, k requires 0 <= k < n => RecordOutput(recs[..n][k], f));
    }
  }

  /** Going through one more of the pieces. */
  lemma ViewStep(pieces: seq<string>, i: nat, f: Filter, decode: Decoder)
    requires i < |pieces|
    ensures View(pieces[..i + 1], f, decode) == Step(View(pieces[..i], f, decode), pieces[i], f, decode)
  {
    assert pieces[..i + 1][..i] == pieces[..i];
  }

  /** The body of the loop for one non-empty piece. */
  method ProcessRecord(out: seq<string>, recordString: string, f: Filter, decode: Decoder)
    returns (out': seq<string>, crashed: bool)
    ensures Report(out', crashed) == Step(Report(out, false), recordString, f, decode)
  {
    match decode(Reclosed(recordString)) {
      case None =>
        out', crashed := out, true;
      case Some(recordFromJson) =>
        var lines := PrintRecord(recordFromJson, f);
        out', crashed := out + lines, false;
    }
  }

  /** When the loop ends at a decode failure, the output is that of all
      the processed pieces. */
  lemma ViewAtCrash(pieces: seq<string>, i: nat, f: Filter, decode: Decoder)
    requires i <= |TakeUntilEmpty(pieces)| && View(pieces[..i], f, decode).crashed
    ensures View(TakeUntilEmpty(pieces), f, decode) == View(pieces[..i], f, decode)
  {
    var processed := TakeUntilEmpty(pieces);
    assert processed[..i] == pieces[..i];
    ViewCrashAbsorbs(processed, i, f, decode);
  }

  /** When the loop ends at an empty piece or at the end, it has gone
      through exactly the processed pieces. */
  lemma ProcessedAtStop(pieces: seq<string>, i: nat)
    requires i <= |TakeUntilEmpty(pieces)| && (i == |pieces| || (i < |pieces| && pieces[i] == ""))
    ensures TakeUntilEmpty(pieces) == pieces[..i]
  {
  }

  /** A non-empty piece at a position not past the processed ones is processed. */
  lemma TakeUntilEmptyStep(pieces: seq<string>, i: nat)
    requires i < |pieces| && pieces[i] != "" && i <= |TakeUntilEmpty(pieces)|
    ensures i < |TakeUntilEmpty(pieces)|
  {
  }

  /** `parse_oracle_json_attention_log`. */
  method ParseOracleJsonAttentionLog(content: string, f: Filter, decode: Decoder) returns (out: seq<string>, crashed: bool)
    ensures Report(out, crashed) == View(TakeUntilEmpty(Split(content, RecordEnd)), f, decode)
  {
    var recordStrings := Split(content, RecordEnd);
    ghost var processed := |TakeUntilEmpty(recordStrings)|;
    out, crashed := [], false;
    var i := 0;
    while i < |recordStrings| && !crashed
      invariant 0 <= i <= processed
      invariant Report(out, crashed) == View(recordStrings[..i], f, decode)
    {
      var recordString := recordStrings[i];
      if |recordString| < 1 {
        break;
      }
      TakeUntilEmptyStep(recordStrings, i);
      ViewStep(recordStrings, i, f, decode);
      out, crashed := ProcessRecord(out, recordString, f, decode);
      i := i + 1;
    }
    if crashed {
      ViewAtCrash(recordStrings, i, f, decode);
    } else {
      ProcessedAtStop(recordStrings, i);
    }
  }

  /** The header line, printed exactly when neither filter is given. */
  function HeaderLines(f: Filter): (r: seq<string>)
    ensures r == [Header] <==> !Given(f.attentionType) && !Given(f.urgency)
    ensures r == [] <==> Given(f.attentionType) || Given(f.urgency)
  {
    if Given(f.attentionType) || Given(f.urgency) then [] else [Header]
  }

  /** The whole tool: argument checks, then the header, then the records. */
  method ViewAttentionLog(rawType: Option<string>, rawUrgency: Option<string>, content: string, decode: Decoder)
    returns (out: seq<string>, status: int)
    ensures ParseChoice(rawType, AttentionTypes).Err? || ParseChoice(rawUrgency, Urgencies).Err? ==>
              out == [] && status == 2
    ensures ParseChoice(rawType, AttentionTypes).Ok? && ParseChoice(rawUrgency, Urgencies).Ok? ==>
              var f := Filter(ParseChoice(rawType, AttentionTypes).value, ParseChoice(rawUrgency, Urgencies).value);
              var rep := View(TakeUntilEmpty(Split(content, RecordEnd)), f, decode);
              out == HeaderLines(f) + rep.out && status == (if rep.crashed then 1 else 0)
  {
    var ty := ParseChoice(rawType, AttentionTypes);
    var urg := ParseChoice(rawUrgency, Urgencies);
    if ty.Err? || urg.Err? {
      return [], 2;
    }
    var f := Filter(ty.value, urg.value);
    out := HeaderLines(f);
    var lines, crashed := ParseOracleJsonAttentionLog(content, f, decode);
    out := out + lines;
    status := if crashed then 1 else 0;
  }
}
