/**
 * The STIG value translator: given one of a CCI, Rule ID, Rule Name, STIG
 * ID or Vuln ID and a value type to translate to, it prints the values of
 * that type that the checklist relates to the given one.
 */
module StigTranslator {
  import opened Wrappers
  import opened Text
  import opened Checklist

  /** The value types, as `-t/--translate_to` names them. */
  datatype Target = Cci | RuleId | RuleName | Stig | Vul

  function TargetName(t: Target): string
  {
    match t
    case Cci => "cci"
    case RuleId => "rule_id"
    case RuleName => "rule_name"
    case Stig => "stig"
    case Vul => "vul"
  }

  const TargetChoices: set<string> := {"cci", "rule_id", "rule_name", "stig", "vul"}

  /** argparse's `type=str.lower` and `choices` for `-t`; a value outside the
      choices is a usage error. */
  function ParseTarget(raw: string): (r: Result<Target>)
    ensures r.Ok? <==> Lower(raw) in TargetChoices
    ensures r.Ok? ==> TargetName(r.value) == Lower(raw)
  {
    var s := Lower(raw);
    if s == "cci" then Ok(Cci)
    else if s == "rule_id" then Ok(RuleId)
    else if s == "rule_name" then Ok(RuleName)
    else if s == "stig" then Ok(Stig)
    else if s == "vul" then Ok(Vul)
    else Err("invalid choice: " + s)
  }

  /** The VULN_ATTRIBUTE that holds values of each type. */
  function AttributeOf(t: Target): string
  {
    match t
    case Cci => CciRefAttr
    case RuleId => RuleIdAttr
    case RuleName => GroupTitleAttr
    case Stig => RuleVerAttr
    case Vul => VulnNumAttr
  }

  /** Different types are held under different attributes. */
  lemma AttributeOfInjective(a: Target, b: Target)
    ensures AttributeOf(a) == AttributeOf(b) <==> a == b
  {
  }

  /** The five source options. */
  datatype Sources = Sources(cci: Option<string>, ruleId: Option<string>, ruleName: Option<string>,
                             stig: Option<string>, vul: Option<string>)

  function Source(s: Sources, t: Target): Option<string>
  {
    match t
    case Cci => s.cci
    case RuleId => s.ruleId
    case RuleName => s.ruleName
    case Stig => s.stig
    case Vul => s.vul
  }

  /** argparse's `type=str.upper` on every source option but `--rule_id`. */
  function Convert(raw: Sources): (s: Sources)
    ensures s.ruleId == raw.ruleId
    ensures forall t :: t != RuleId ==> Source(s, t) == UpperOpt(Source(raw, t))
  {
    Sources(UpperOpt(raw.cci), raw.ruleId, UpperOpt(raw.ruleName), UpperOpt(raw.stig), UpperOpt(raw.vul))
  }

  /** The command line after argparse: how many words follow the program
      name, the raw source options, and the raw `-t` value. */
  datatype Args = Args(argc: nat, sources: Sources, translateTo: string)

  /** `is_arg_specified`. */
  predicate IsArgSpecified(o: Option<string>)
  {
    o.Some? && o.value != ""
  }

  /** The position of each type in the order the source options are tried. */
  function Rank(t: Target): nat
  {
    match t
    case Cci => 0
    case RuleId => 1
    case RuleName => 2
    case Stig => 3
    case Vul => 4
  }

  /** The option that ends up in `specified_arg`: the last specified one
      in the order cci, rule_id, rule_name, stig, vul. */
  function LastSpecified(s: Sources): (r: Option<Target>)
    ensures r.None? ==> forall t :: !IsArgSpecified(Source(s, t))
    ensures r.Some? ==> IsArgSpecified(Source(s, r.value))
    ensures r.Some? ==> forall t :: Rank(t) > Rank(r.value) ==> !IsArgSpecified(Source(s, t))
  {
    if IsArgSpecified(s.vul) then Some(Vul)
    else if IsArgSpecified(s.stig) then Some(Stig)
    else if IsArgSpecified(s.ruleName) then Some(RuleName)
    else if IsArgSpecified(s.ruleId) then Some(RuleId)
    else if IsArgSpecified(s.cci) then Some(Cci)
    else None
  }

  /** The value `check_arg_count` is called with. */
  const ExpectedArgCount: nat := 6

  const ChoicesLine: string := "The choices are: -c or --cci, -ri or --rule_id, -rn or --rule_name, -s or --stig, -v or --vul"

  function TooManyLines(argc: nat): seq<string>
  {
    [ NatToString(ExpectedArgCount),
      "Too many arguments. Expected " + NatToString(ExpectedArgCount) + " arguments, but got "
        + NatToString(argc) + " arguments.",
      "Error: Too many command line arguments specified. Please provide no more than 1 optional arguments.",
      ChoicesLine ]
  }

  const NothingSpecified: string :=
    "Error: Please specify at least one of the following options: -c or --cci, -ri or --rule_id, -rn or --rule_name, -s or --stig, -v or --vul."

  function SameTypeError(value: string, t: Target): string
  {
    "ERROR: '" + value + "' should not be specified when 'translate_to' or -t is set to '" + TargetName(t) + "'."
  }

  const CciFormatError: string :=
    "Error: The CCI value is not in the correct format. It must be in the format of CCI-###### (six digits)."

  /** The checks made before the checklist is read, in the order the
      script makes them: the lines printed by the first that fails. */
  function CommandLineError(argc: nat, s: Sources, t: Target): (r: Option<seq<string>>)
    ensures r.None? <==> && argc <= ExpectedArgCount
                         && LastSpecified(s).Some?
                         && !IsArgSpecified(Source(s, t))
  {
    if argc > ExpectedArgCount then Some(TooManyLines(argc))
    else if !(Truthy(s.cci) || Truthy(s.ruleId) || Truthy(s.ruleName) || Truthy(s.stig) || Truthy(s.vul)) then
      Some([NothingSpecified])
    else if IsArgSpecified(Source(s, t)) then Some([SameTypeError(Source(s, t).value, t)])
    else None
  }

  /** What the lookup part of the script prints, and its exit status: the
      CCI format check, then the translation of the last specified value. */
  function Lookup(s: Sources, t: Target, ckl: seq<Vuln>): (r: (seq<string>, int))
    requires LastSpecified(s).Some?
    ensures r.1 == 0 ==> !IsArgSpecified(s.cci) || IsValidCci(s.cci.value)
  {
    if IsArgSpecified(s.cci) && !IsValidCci(s.cci.value) then ([CciFormatError], 1)
    else
      var from := LastSpecified(s).value;
      var arg := Source(s, from).value;
      if t == Cci then (FormatCciRefs(CciRefs(ckl, AttributeOf(from), arg)), 0)
      else
        var p := Projection(FindVulns(ckl, arg), AttributeOf(t));
        (p.out, if p.crashed then 1 else 0)
  }

  /** The whole run: the lines printed and the exit status. */
  function Translation(args: Args, ckl: seq<Vuln>): (r: (seq<string>, int))
    ensures r.1 == 0 ==> && ParseTarget(args.translateTo).Ok?
                         && args.argc <= ExpectedArgCount
                         && LastSpecified(Convert(args.sources)).Some?
                         && !IsArgSpecified(Source(Convert(args.sources), ParseTarget(args.translateTo).value))
                         && (IsArgSpecified(Convert(args.sources).cci) ==> IsValidCci(Convert(args.sources).cci.value))
  {
    match ParseTarget(args.translateTo)
    case Err(_) => ([], 2)
    case Ok(t) =>
      var s := Convert(args.sources);
      match CommandLineError(args.argc, s, t)
      case Some(lines) => (lines, 1)
      case None => Lookup(s, t, ckl)
  }

  /** A value is looked up only when every check passes; the checks reject,
      in this order, too many arguments, no source option, a source option
      of the target's own type, and a badly formed CCI. */
  lemma TranslationChecks(args: Args, ckl: seq<Vuln>)
    requires ParseTarget(args.translateTo).Ok?
    ensures var t, s := ParseTarget(args.translateTo).value, Convert(args.sources);
            var r := Translation(args, ckl);
            && (args.argc > ExpectedArgCount ==> r == (TooManyLines(args.argc), 1))
            && (args.argc <= ExpectedArgCount && LastSpecified(s).None? ==> r == ([NothingSpecified], 1))
            && (args.argc <= ExpectedArgCount && IsArgSpecified(Source(s, t)) ==>
                  r == ([SameTypeError(Source(s, t).value, t)], 1))
            && ((&& args.argc <= ExpectedArgCount && !IsArgSpecified(Source(s, t))
                 && IsArgSpecified(s.cci) && !IsValidCci(s.cci.value))
                ==> r == ([CciFormatError], 1))
  {
    if args.argc > ExpectedArgCount {
      TooManyArgsRefused(args, ckl);
    } else {
      var t, s := ParseTarget(args.translateTo).value, Convert(args.sources);
      if LastSpecified(s).None? {
        NothingSpecifiedRefused(args, ckl);
      }
      if IsArgSpecified(Source(s, t)) {
        SameTypeRefused(args, ckl);
      } else if IsArgSpecified(s.cci) && !IsValidCci(s.cci.value) {
        BadCciRefused(args, ckl);
      }
    }
  }

  /** More than six arguments: `check_arg_count` exits first. */
  lemma TooManyArgsRefused(args: Args, ckl: seq<Vuln>)
    requires ParseTarget(args.translateTo).Ok? && args.argc > ExpectedArgCount
    ensures Translation(args, ckl) == (TooManyLines(args.argc), 1)
  {
  }

  /** No source option given: the `any(...)` check exits. */
  lemma NothingSpecifiedRefused(args: Args, ckl: seq<Vuln>)
    requires ParseTarget(args.translateTo).Ok? && args.argc <= ExpectedArgCount
    requires LastSpecified(Convert(args.sources)).None?
    ensures Translation(args, ckl) == ([NothingSpecified], 1)
  {
  }

  /** The target's own option given: one of the five same-type checks exits. */
  lemma SameTypeRefused(args: Args, ckl: seq<Vuln>)
    requires ParseTarget(args.translateTo).Ok? && args.argc <= ExpectedArgCount
    requires IsArgSpecified(Source(Convert(args.sources), ParseTarget(args.translateTo).value))
    ensures var t, s := ParseTarget(args.translateTo).value, Convert(args.sources);
            Translation(args, ckl) == ([SameTypeError(Source(s, t).value, t)], 1)
  {
  }

  /** A malformed CCI, once the command-line checks pass. */
  lemma BadCciRefused(args: Args, ckl: seq<Vuln>)
    requires ParseTarget(args.translateTo).Ok? && args.argc <= ExpectedArgCount
    requires var t, s := ParseTarget(args.translateTo).value, Convert(args.sources);
             && !IsArgSpecified(Source(s, t)) && IsArgSpecified(s.cci) && !IsValidCci(s.cci.value)
    ensures Translation(args, ckl) == ([CciFormatError], 1)
  {
  }

  /** A badly formed CCI aborts the run even when a later option is also
      given, so that the CCI is not the value looked up. */
  lemma InvalidCciAbortsEvenWhenOverridden(args: Args, ckl: seq<Vuln>)
    requires ParseTarget(args.translateTo).Ok? && args.argc <= ExpectedArgCount
    requires var s := Convert(args.sources);
             && !IsArgSpecified(Source(s, ParseTarget(args.translateTo).value))
             && IsArgSpecified(s.cci) && !IsValidCci(s.cci.value)
             && LastSpecified(s) != Some(Cci)
    ensures Translation(args, ckl) == ([CciFormatError], 1)
  {
  }

  /** Translating to CCI prints the CCI_REF values of the VULNs whose
      attribute for the given option's type holds the given value; every
      printed value is one of them. */
  lemma TranslateToCci(args: Args, ckl: seq<Vuln>)
    requires ParseTarget(args.translateTo) == Ok(Cci)
    requires var s := Convert(args.sources);
             && args.argc <= ExpectedArgCount && LastSpecified(s).Some? && !IsArgSpecified(s.cci)
    ensures var s := Convert(args.sources);
            var from := LastSpecified(s).value;
            && from in {RuleId, RuleName, Stig, Vul}
            && Translation(args, ckl).1 == 0
            && Translation(args, ckl).0 == FormatCciRefs(CciRefs(ckl, AttributeOf(from), Source(s, from).value))
            && forall c :: c in CciRefs(ckl, AttributeOf(from), Source(s, from).value) <==>
                 exists k, i :: 0 <= k < |ckl| && HasPair(ckl[k], AttributeOf(from), Source(s, from).value)
                   && 0 <= i < |ckl[k].stigData| && ckl[k].stigData[i] == StigData(CciRefAttr, c)
  {
    var s := Convert(args.sources);
    var from := LastSpecified(s).value;
    forall c ensures c in CciRefs(ckl, AttributeOf(from), Source(s, from).value) <==>
                 exists k, i :: 0 <= k < |ckl| && HasPair(ckl[k], AttributeOf(from), Source(s, from).value)
                   && 0 <= i < |ckl[k].stigData| && ckl[k].stigData[i] == StigData(CciRefAttr, c)
    {
      CciRefsMeaning(ckl, AttributeOf(from), Source(s, from).value, c);
    }
  }

  /** Translating to any other type prints, for each VULN holding the value
      as any ATTRIBUTE_DATA, the first value of the target's attribute, and
      the run fails at the first such VULN that has none. */
  lemma TranslateToOther(args: Args, ckl: seq<Vuln>)
    requires ParseTarget(args.translateTo).Ok? && ParseTarget(args.translateTo) != Ok(Cci)
    requires var s := Convert(args.sources);
             && args.argc <= ExpectedArgCount && LastSpecified(s).Some?
             && !IsArgSpecified(Source(s, ParseTarget(args.translateTo).value))
             && (IsArgSpecified(s.cci) ==> IsValidCci(s.cci.value))
    ensures var t, s := ParseTarget(args.translateTo).value, Convert(args.sources);
            var vulns := FindVulns(ckl, Source(s, LastSpecified(s).value).value);
            var r := Translation(args, ckl);
            && (r.1 == 0 <==> forall k :: 0 <= k < |vulns| ==> AttrValues(vulns[k], AttributeOf(t)) != [])
            && |r.0| <= |vulns|
            && (forall k :: 0 <= k < |r.0| ==> r.0[k] == AttrValues(vulns[k], AttributeOf(t))[0])
            && (r.1 == 0 ==> |r.0| == |vulns|)
  {
  }

  /** Only the last specified option decides what is looked up: giving an
      earlier option too, or leaving it out, changes nothing, unless it is a
      badly formed CCI. */
  lemma LaterOptionWins(args: Args, other: Args, ckl: seq<Vuln>)
    requires args.translateTo == other.translateTo && args.argc == other.argc
    requires ParseTarget(args.translateTo).Ok?
    requires var s, o := Convert(args.sources), Convert(other.sources);
             && LastSpecified(s).Some? && LastSpecified(o) == LastSpecified(s)
             && Source(o, LastSpecified(s).value) == Source(s, LastSpecified(s).value)
             && IsArgSpecified(Source(o, ParseTarget(args.translateTo).value)) == IsArgSpecified(Source(s, ParseTarget(args.translateTo).value))
             && (IsArgSpecified(s.cci) ==> IsValidCci(s.cci.value))
             && (IsArgSpecified(o.cci) ==> IsValidCci(o.cci.value))
    requires !IsArgSpecified(Source(Convert(args.sources), ParseTarget(args.translateTo).value))
    ensures Translation(args, ckl) == Translation(other, ckl)
  {
  }

  /** The assignments to `specified_arg`, each later specified option
      overriding the earlier ones, with the CCI format check made when the
      CCI is assigned; `cciOk` is false where that check ends the run. */
  method PickSpecifiedArg(s: Sources) returns (specifiedArg: string, cciOk: bool)
    requires LastSpecified(s).Some?
    ensures cciOk <==> !IsArgSpecified(s.cci) || IsValidCci(s.cci.value)
    ensures cciOk ==> specifiedArg == Source(s, LastSpecified(s).value).value
  {
    specifiedArg, cciOk := "", true;
    if IsArgSpecified(s.cci) {
      specifiedArg := s.cci.value;
      if !IsValidCci(specifiedArg) {
        return specifiedArg, false;
      }
    }
    if IsArgSpecified(s.ruleId) {
      specifiedArg := s.ruleId.value;
    }
    if IsArgSpecified(s.ruleName) {
      specifiedArg := s.ruleName.value;
    }
    if IsArgSpecified(s.stig) {
      specifiedArg := s.stig.value;
    }
    if IsArgSpecified(s.vul) {
      specifiedArg := s.vul.value;
    }
  }

  /** The assignments to `xpath_query` when translating to CCI: the
      attribute of the last specified option other than the CCI. */
  method PickQueryAttribute(s: Sources) returns (attr: string)
    requires LastSpecified(s).Some? && !IsArgSpecified(s.cci)
    ensures attr == AttributeOf(LastSpecified(s).value)
    ensures attr in {RuleIdAttr, GroupTitleAttr, RuleVerAttr, VulnNumAttr}
  {
    attr := "";
    if IsArgSpecified(s.ruleId) {
      attr := RuleIdAttr;
    }
    if IsArgSpecified(s.ruleName) {
      attr := GroupTitleAttr;
    }
    if IsArgSpecified(s.stig) {
      attr := RuleVerAttr;
    }
    if IsArgSpecified(s.vul) {
      attr := VulnNumAttr;
    }
  }

  /** The script as written: the checks, the reassignments of
      `specified_arg` and of the query, and the printing loops. */
  method Translate(args: Args, ckl: seq<Vuln>) returns (out: seq<string>, status: int)
    ensures (out, status) == Translation(args, ckl)
  {
    var parsed := ParseTarget(args.translateTo);
    if parsed.Err? {
      return [], 2;
    }
    var translateTo := parsed.value;
    var s := Convert(args.sources);
    var error := CheckCommandLine(args.argc, s, translateTo);
    if error.Some? {
      return error.value, 1;
    }
    out, status := LookUp(s, translateTo, ckl);
  }

  /** The checks at the top of the script, each ending the run with its message. */
  method CheckCommandLine(argc: nat, s: Sources, translateTo: Target) returns (error: Option<seq<string>>)
    ensures error == CommandLineError(argc, s, translateTo)
  {
    if argc > ExpectedArgCount {
      return Some(TooManyLines(argc));
    }
    if !(Truthy(s.cci) || Truthy(s.ruleId) || Truthy(s.ruleName) || Truthy(s.stig) || Truthy(s.vul)) {
      return Some([NothingSpecified]);
    }
    error := CheckSameType(s, translateTo);
  }

  /** The five checks that the option of the target's own type is not given. */
  method CheckSameType(s: Sources, translateTo: Target) returns (error: Option<seq<string>>)
    ensures IsArgSpecified(Source(s, translateTo)) ==> error == Some([SameTypeError(Source(s, translateTo).value, translateTo)])
    ensures !IsArgSpecified(Source(s, translateTo)) ==> error == None
  {
    if translateTo == Cci && IsArgSpecified(s.cci) {
      return Some([SameTypeError(s.cci.value, Cci)]);
    }
    if translateTo == RuleId && IsArgSpecified(s.ruleId) {
      return Some([SameTypeError(s.ruleId.value, RuleId)]);
    }
    if translateTo == RuleName && IsArgSpecified(s.ruleName) {
      return Some([SameTypeError(s.ruleName.value, RuleName)]);
    }
    if translateTo == Stig && IsArgSpecified(s.stig) {
      return Some([SameTypeError(s.stig.value, Stig)]);
    }
    if translateTo == Vul && IsArgSpecified(s.vul) {
      return Some([SameTypeError(s.vul.value, Vul)]);
    }
    return None;
  }

  /** The rest of the script, once the checks have passed. */
  method LookUp(s: Sources, translateTo: Target, ckl: seq<Vuln>) returns (out: seq<string>, status: int)
    requires LastSpecified(s).Some? && !IsArgSpecified(Source(s, translateTo))
    ensures (out, status) == Lookup(s, translateTo, ckl)
  {
    var specifiedArg, cciOk := PickSpecifiedArg(s);
    if !cciOk {
      return [CciFormatError], 1;
    }
    if translateTo == Cci {
      var attr := PickQueryAttribute(s);
      var cciRefs := CollectCciRefs(CciRefNodes(ckl, attr, specifiedArg));
      assert cciRefs == CciRefs(ckl, attr, specifiedArg);
      out, status := FormatCciRefs(cciRefs), 0;
    } else {
      var vulns := FindVulns(ckl, specifiedArg);
      var crashed;
      out, crashed := PrintProjection(vulns, AttributeOf(translateTo));
      status := if crashed then 1 else 0;
    }
  }
}
