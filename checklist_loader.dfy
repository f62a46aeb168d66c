/**
 * The manual checklist loader: it sets the STATUS, COMMENTS or
 * FINDING_DETAILS of the first VULN whose Rule_Ver is the given STIG ID,
 * after checking that the options are consistent and that the ID exists.
 */
module ChecklistLoader {
  import opened Wrappers
  import opened Text
  import opened Checklist

  /** The file given with `-f/--loadfromfile`: its name and what `read()` returns. */
  datatype LoadFile = LoadFile(name: string, contents: string)

  /** The command line after argparse has parsed it: `--id` as given (the
      `str.upper` type conversion is applied by the checks), `--status`
      still to be checked against its choices. */
  datatype Args = Args(loadFromFile: Option<LoadFile>, findingDetails: bool, id: string,
                       comments: bool, status: Option<string>)

  const StatusChoices: set<string> := {"NotAFinding", "Open", "NotApplicable"}

  /** The field a run updates, and with what. */
  datatype Field = Status | Comments | FindingDetails

  datatype Request = Request(id: string, field: Field, value: string, fileName: string)

  /** The outcome of the option checks: the request to carry out, or a usage
      error (status 2) with the lines it prints. An error argparse raises
      itself prints nothing here; one the script raises with
      `parser.error` prints its message. */
  datatype Checked = Accepted(request: Request) | Refused(lines: seq<string>)

  const NoFieldError: string :=
    "\n\nError: At least one of the following options must be specified: --finding_details, --comments, or --status\nPlease specify one of the following: --finding_details or -d, --comments or -c, --status or -s"
  const StatusWithFileError: string :=
    "\n\nError: Do not specify a file with the -f or --loadfromfile option when using the -s or --status option."
  const SeveralFieldsError: string :=
    "\n\nError: Only one of the following options can be specified: -d/--finding_details, -c/--comments, or -s/--status"
  const FileMissingError: string :=
    "\n\nError: The -f or --loadfromfile option must be used with the -c/--comments or the -d/--finding_details options."

  function NotFoundError(id: string): string
  {
    "\n\nError: STIG ID " + id + " not found in the specified XML file."
  }

  function BoolCount(b: bool): nat
  {
    if b then 1 else 0
  }

  /** argparse's `choices` check on `--status`. */
  predicate StatusChoiceOk(args: Args)
  {
    args.status.Some? ==> args.status.value in StatusChoices
  }

  /** The option checks, in the order the script makes them, after
      argparse's own check of the status choice. */
  function CheckOptions(args: Args): (r: Checked)
    ensures r.Accepted? <==>
              && StatusChoiceOk(args)
              && BoolCount(args.findingDetails) + BoolCount(args.comments) + BoolCount(Truthy(args.status)) == 1
              && !(Truthy(args.status) && args.loadFromFile.Some?)
              && !((args.comments || args.findingDetails) && args.loadFromFile.None?)
    ensures r == Refused([]) <==> !StatusChoiceOk(args)
    ensures r.Refused? && StatusChoiceOk(args) ==> |r.lines| == 1
    ensures r.Accepted? && Truthy(args.status) ==> r.request.field == Status && r.request.value == args.status.value
    ensures r.Accepted? && args.comments ==> r.request.field == Comments
                                             && r.request.value == args.loadFromFile.value.contents
                                             && r.request.fileName == args.loadFromFile.value.name
    ensures r.Accepted? && args.findingDetails ==> r.request.field == FindingDetails
                                                   && r.request.value == args.loadFromFile.value.contents
                                                   && r.request.fileName == args.loadFromFile.value.name
    ensures r.Accepted? ==> r.request.id == Upper(args.id)
  {
    var id := Upper(args.id);
    if !StatusChoiceOk(args) then Refused([])
    else if !(args.findingDetails || args.comments || Truthy(args.status)) then Refused([NoFieldError])
    else if Truthy(args.status) && args.loadFromFile.Some? then Refused([StatusWithFileError])
    else if BoolCount(args.findingDetails) + BoolCount(args.comments) + BoolCount(Truthy(args.status)) != 1 then
      Refused([SeveralFieldsError])
    else if (args.comments && args.loadFromFile.None?) || (args.findingDetails && args.loadFromFile.None?) then
      Refused([FileMissingError])
    else if Truthy(args.status) then Accepted(Request(id, Status, args.status.value, ""))
    else if args.comments then Accepted(Request(id, Comments, args.loadFromFile.value.contents, args.loadFromFile.value.name))
    else Accepted(Request(id, FindingDetails, args.loadFromFile.value.contents, args.loadFromFile.value.name))
  }

  /** Each check's own message: no field at all, a status with a file, more
      than one field, and comments or details without a file, in that order. */
  lemma CheckOptionsRefuses(args: Args)
    requires StatusChoiceOk(args)
    ensures !args.comments && !args.findingDetails && args.status.None? ==> CheckOptions(args) == Refused([NoFieldError])
    ensures Truthy(args.status) && args.loadFromFile.Some? ==> CheckOptions(args) == Refused([StatusWithFileError])
    ensures Truthy(args.status) && args.loadFromFile.None? && (args.comments || args.findingDetails) ==>
              CheckOptions(args) == Refused([SeveralFieldsError])
    ensures !Truthy(args.status) && args.comments && args.findingDetails ==>
              CheckOptions(args) == Refused([SeveralFieldsError])
    ensures BoolCount(args.findingDetails) + BoolCount(args.comments) + BoolCount(Truthy(args.status)) == 1
            && (args.comments || args.findingDetails) && args.loadFromFile.None? ==>
              CheckOptions(args) == Refused([FileMissingError])
  {
  }

  /** The VULN with field `f` set to `value`, nothing else changed. */
  function Apply(v: Vuln, f: Field, value: string): (r: Vuln)
    ensures r.stigData == v.stigData
    ensures r.status == (if f == Status then value else v.status)
    ensures r.comments == (if f == Comments then value else v.comments)
    ensures r.findingDetails == (if f == FindingDetails then value else v.findingDetails)
  {
    match f
    case Status => v.(status := value)
    case Comments => v.(comments := value)
    case FindingDetails => v.(findingDetails := value)
  }

  /** The position of the first VULN whose Rule_Ver is `id`, or the length. */
  function FirstMatch(ckl: seq<Vuln>, id: string): (n: nat)
    ensures n <= |ckl|
    ensures forall k :: 0 <= k < n ==> RuleVer(ckl[k]) != Some(id)
    ensures n < |ckl| ==> RuleVer(ckl[n]) == Some(id)
  {
    FirstMatchFrom(ckl, id, 0)
  }

  /** The position of the first VULN at or after `i` whose Rule_Ver is `id`, or the length. */
  function FirstMatchFrom(ckl: seq<Vuln>, id: string, i: nat): (n: nat)
    requires i <= |ckl|
    ensures i <= n <= |ckl|
    ensures forall k :: i <= k < n ==> RuleVer(ckl[k]) != Some(id)
    ensures n < |ckl| ==> RuleVer(ckl[n]) == Some(id)
    decreases |ckl| - i
  {
    if i == |ckl| || RuleVer(ckl[i]) == Some(id) then i else FirstMatchFrom(ckl, id, i + 1)
  }

  /** The first match is the position that matches after positions that do not. */
  lemma FirstMatchAt(ckl: seq<Vuln>, id: string, i: nat)
    requires i <= |ckl|
    requires forall k :: 0 <= k < i ==> RuleVer(ckl[k]) != Some(id)
    requires i < |ckl| ==> RuleVer(ckl[i]) == Some(id)
    ensures FirstMatch(ckl, id) == i
  {
  }

  /** The existence check: some VULN has `id` as its Rule_Ver. */
  predicate IdExists(ckl: seq<Vuln>, id: string)
  {
    exists k :: 0 <= k < |ckl| && RuleVer(ckl[k]) == Some(id)
  }

  lemma IdExistsIff(ckl: seq<Vuln>, id: string)
    ensures IdExists(ckl, id) <==> FirstMatch(ckl, id) < |ckl|
  {
  }

  /** The checklist after the update: the first VULN whose Rule_Ver is the
      ID gets the new field value; every other VULN, and every other part of
      that one, stays as it was. */
  function Updated(ckl: seq<Vuln>, id: string, f: Field, value: string): (r: seq<Vuln>)
    ensures |r| == |ckl|
    ensures forall k :: 0 <= k < |ckl| && k != FirstMatch(ckl, id) ==> r[k] == ckl[k]
    ensures FirstMatch(ckl, id) < |ckl| ==> r[FirstMatch(ckl, id)] == Apply(ckl[FirstMatch(ckl, id)], f, value)
    ensures !IdExists(ckl, id) ==> r == ckl
  {
    var n := FirstMatch(ckl, id);
    if n < |ckl| then ckl[n := Apply(ckl[n], f, value)] else ckl
  }

  /** Later VULNs with the same Rule_Ver are left alone. */
  lemma LaterMatchesUntouched(ckl: seq<Vuln>, id: string, f: Field, value: string, j: nat)
    requires FirstMatch(ckl, id) < j < |ckl| && RuleVer(ckl[j]) == Some(id)
    ensures Updated(ckl, id, f, value)[j] == ckl[j]
  {
  }

  /** Updating twice is updating once: the Rule_Vers do not change, so the
      same VULN is found again and given the same value. */
  lemma {:induction false} UpdatedIdempotent(ckl: seq<Vuln>, id: string, f: Field, value: string)
    ensures Updated(Updated(ckl, id, f, value), id, f, value) == Updated(ckl, id, f, value)
  {
    var r := Updated(ckl, id, f, value);
    SameRuleVersSameMatch(ckl, r, id);
  }

  /** Two checklists whose VULNs agree on their Rule_Vers have the same first match. */
  lemma SameRuleVersSameMatch(a: seq<Vuln>, b: seq<Vuln>, id: string)
    requires |a| == |b| && forall k :: 0 <= k < |a| ==> a[k].stigData == b[k].stigData
    ensures FirstMatch(a, id) == FirstMatch(b, id)
  {
    SameRuleVersSameMatchFrom(a, b, id, 0);
  }

  lemma {:induction false} SameRuleVersSameMatchFrom(a: seq<Vuln>, b: seq<Vuln>, id: string, i: nat)
    requires i <= |a| == |b| && forall k :: 0 <= k < |a| ==> a[k].stigData == b[k].stigData
    ensures FirstMatchFrom(a, id, i) == FirstMatchFrom(b, id, i)
    decreases |a| - i
  {
    if i < |a| && RuleVer(a[i]) != Some(id) {
      SameRuleVersSameMatchFrom(a, b, id, i + 1);
    }
  }

  /** What the update prints. */
  function UpdateMessage(req: Request): string
  {
    match req.field
    case Status => "The STATUS has been updated to " + req.value + " for STIG ID " + req.id
    case Comments => "The COMMENTS have been updated for " + req.id + " from file " + req.fileName
    case FindingDetails => "The FINDING_DETAILS have been updated for " + req.id + " from file " + req.fileName
  }

  /** The update loop: walk the VULNs, and at the first whose Rule_Ver is the
      ID set the field, print the message and stop. */
  method UpdateFirstMatch(vulns: array<Vuln>, req: Request) returns (out: seq<string>)
    modifies vulns
    ensures vulns[..] == Updated(old(vulns[..]), req.id, req.field, req.value)
    ensures out == (if IdExists(old(vulns[..]), req.id) then [UpdateMessage(req)] else [])
  {
    ghost var before := vulns[..];
    IdExistsIff(before, req.id);
    out := [];
    var i := 0;
    while i < vulns.Length
      invariant 0 <= i <= vulns.Length
      invariant vulns[..] == before
      invariant i <= FirstMatch(before, req.id)
    {
      var ruleVer := RuleVer(vulns[i]);
      if ruleVer == Some(req.id) {
        vulns[i] := Apply(vulns[i], req.field, req.value);
        out := [UpdateMessage(req)];
        break;
      }
      i := i + 1;
    }
  }

  /** The existence check: `any(...)` over the VULNs. */
  method HasId(vulns: array<Vuln>, id: string) returns (found: bool)
    ensures found == IdExists(vulns[..], id)
  {
    found := false;
    for k := 0 to vulns.Length
      invariant found <==> exists j :: 0 <= j < k && RuleVer(vulns[j]) == Some(id)
    {
      if RuleVer(vulns[k]) == Some(id) {
        found := true;
      }
    }
  }

  /** The whole run: the checks, the existence check, then the update.
      Every refusal is a usage error (status 2) that leaves the checklist
      as it was. */
  method LoadChecklist(args: Args, vulns: array<Vuln>) returns (out: seq<string>, status: int)
    modifies vulns
    ensures CheckOptions(args).Refused? ==>
              out == CheckOptions(args).lines && status == 2 && vulns[..] == old(vulns[..])
    ensures CheckOptions(args).Accepted? && !IdExists(old(vulns[..]), Upper(args.id)) ==>
              out == [NotFoundError(Upper(args.id))] && status == 2 && vulns[..] == old(vulns[..])
    ensures CheckOptions(args).Accepted? && IdExists(old(vulns[..]), Upper(args.id)) ==>
              var req := CheckOptions(args).request;
              && out == [UpdateMessage(req)] && status == 0
              && vulns[..] == Updated(old(vulns[..]), Upper(args.id), req.field, req.value)
  {
    var checked := CheckOptions(args);
    if checked.Refused? {
      return checked.lines, 2;
    }
    var req := checked.request;
    var found := HasId(vulns, req.id);
    if !found {
      return [NotFoundError(req.id)], 2;
    }
    out := UpdateFirstMatch(vulns, req);
    status := 0;
  }
}
