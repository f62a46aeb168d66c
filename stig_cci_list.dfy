/**
 * The STIG ID / CCI lister: given a STIG ID it prints the CCI values of
 * the checklist VULNs with that Rule_Ver; given a CCI it prints the
 * Rule_Ver of every VULN holding that CCI.
 */
module StigCciList {
  import opened Wrappers
  import opened Text
  import opened Checklist

  /** The options after argparse's `type=str.upper`. */
  datatype Args = Args(cci: Option<string>, stig: Option<string>)

  const BothGiven: string := "Please only specify either a STIG ID or a CCI value, but not both."

  const CciFormatError: string :=
    "Error: The CCI value is not in the correct format. It must be in the format of CCI-###### (six digits)."

  function NoCciRefs(stig: string): string
  {
    "No CCI_REF values were found for Rule_Ver/STIG ID '" + stig + "'."
  }

  /** What the STIG ID lookup prints for the CCI values found. */
  function StigLines(stig: string, cciRefs: seq<string>): (r: seq<string>)
    ensures |r| == 1
    ensures cciRefs == [] ==> r == [NoCciRefs(stig)]
    ensures cciRefs != [] ==> r == FormatCciRefs(cciRefs)
  {
    if cciRefs == [] then [NoCciRefs(stig)] else FormatCciRefs(cciRefs)
  }

  /** The whole run: the lines printed and the exit status. */
  function Listing(raw: Args, ckl: seq<Vuln>): (r: (seq<string>, int))
  {
    var cci, stig := UpperOpt(raw.cci), UpperOpt(raw.stig);
    if Truthy(stig) && Truthy(cci) then ([BothGiven], 1)
    else if Truthy(stig) then (StigLines(stig.value, CciRefs(ckl, RuleVerAttr, stig.value)), 0)
    else if Truthy(cci) then
      if !IsValidCci(cci.value) then ([CciFormatError], 1)
      else
        var p := Projection(FindVulns(ckl, cci.value), RuleVerAttr);
        (p.out, if p.crashed then 1 else 0)
    else ([], 0)
  }

  /** Giving both options aborts before anything is looked up, whatever the checklist. */
  lemma BothOptionsRejected(raw: Args, ckl: seq<Vuln>, other: seq<Vuln>)
    requires Truthy(UpperOpt(raw.stig)) && Truthy(UpperOpt(raw.cci))
    ensures Listing(raw, ckl) == ([BothGiven], 1) == Listing(raw, other)
  {
  }

  /** A STIG ID prints exactly one line: the CCI values of the VULNs whose
      Rule_Ver is that ID, or the message that there are none. */
  lemma StigToCci(raw: Args, ckl: seq<Vuln>)
    requires Truthy(UpperOpt(raw.stig)) && !Truthy(UpperOpt(raw.cci))
    ensures var stig := UpperOpt(raw.stig).value;
            var refs := CciRefs(ckl, RuleVerAttr, stig);
            && Listing(raw, ckl).1 == 0
            && (refs == [] ==> Listing(raw, ckl).0 == [NoCciRefs(stig)])
            && (refs != [] ==> Listing(raw, ckl).0 == FormatCciRefs(refs))
            && forall c :: c in refs <==>
                 exists k, i :: 0 <= k < |ckl| && HasPair(ckl[k], RuleVerAttr, stig)
                   && 0 <= i < |ckl[k].stigData| && ckl[k].stigData[i] == StigData(CciRefAttr, c)
  {
    var stig := UpperOpt(raw.stig).value;
    var refs := CciRefs(ckl, RuleVerAttr, stig);
    forall c ensures c in refs <==>
                 exists k, i :: 0 <= k < |ckl| && HasPair(ckl[k], RuleVerAttr, stig)
                   && 0 <= i < |ckl[k].stigData| && ckl[k].stigData[i] == StigData(CciRefAttr, c)
    {
      CciRefsMeaning(ckl, RuleVerAttr, stig, c);
    }
  }

  /** A CCI is checked for form before any lookup. */
  lemma InvalidCciRejected(raw: Args, ckl: seq<Vuln>)
    requires Truthy(UpperOpt(raw.cci)) && !Truthy(UpperOpt(raw.stig))
    requires !IsValidCci(UpperOpt(raw.cci).value)
    ensures Listing(raw, ckl) == ([CciFormatError], 1)
  {
  }

  /** A valid CCI prints the Rule_Ver of each VULN holding it, in document
      order, up to the first such VULN without a Rule_Ver, where the run fails. */
  lemma CciToStig(raw: Args, ckl: seq<Vuln>)
    requires Truthy(UpperOpt(raw.cci)) && !Truthy(UpperOpt(raw.stig))
    requires IsValidCci(UpperOpt(raw.cci).value)
    ensures var vulns := FindVulns(ckl, UpperOpt(raw.cci).value);
            var r := Listing(raw, ckl);
            && (r.1 == 0 <==> forall k :: 0 <= k < |vulns| ==> AttrValues(vulns[k], RuleVerAttr) != [])
            && |r.0| <= |vulns|
            && (forall k :: 0 <= k < |r.0| ==> r.0[k] == AttrValues(vulns[k], RuleVerAttr)[0])
            && (r.1 == 0 ==> |r.0| == |vulns|)
  {
    var p := Projection(FindVulns(ckl, UpperOpt(raw.cci).value), RuleVerAttr);
    assert Listing(raw, ckl) == (p.out, if p.crashed then 1 else 0);
  }

  /** The script as written. */
  method ListIds(raw: Args, ckl: seq<Vuln>) returns (out: seq<string>, status: int)
    ensures (out, status) == Listing(raw, ckl)
  {
    var cci, stig := UpperOpt(raw.cci), UpperOpt(raw.stig);
    if Truthy(stig) && Truthy(cci) {
      return [BothGiven], 1;
    }
    out, status := [], 0;
    if Truthy(stig) {
      out := LookUpStig(stig.value, ckl);
    }
    if Truthy(cci) {
      out, status := LookUpCci(cci.value, ckl);
    }
  }

  /** The STIG ID branch: collect the CCI values, then print them or the
      "none found" message. */
  method LookUpStig(stig: string, ckl: seq<Vuln>) returns (out: seq<string>)
    ensures out == StigLines(stig, CciRefs(ckl, RuleVerAttr, stig))
  {
    var cciRefs := CollectCciRefs(CciRefNodes(ckl, RuleVerAttr, stig));
    assert cciRefs == CciRefs(ckl, RuleVerAttr, stig);
    if |cciRefs| > 1 {
      out := [Join(cciRefs, ", ")];
    } else if |cciRefs| == 1 {
      out := [cciRefs[0]];
    } else {
      out := [NoCciRefs(stig)];
    }
  }

  /** The CCI branch: the format check, then the Rule_Ver of each VULN
      holding the CCI. */
  method LookUpCci(cci: string, ckl: seq<Vuln>) returns (out: seq<string>, status: int)
    ensures !IsValidCci(cci) ==> (out, status) == ([CciFormatError], 1)
    ensures IsValidCci(cci) ==>
              var p := Projection(FindVulns(ckl, cci), RuleVerAttr);
              (out, status) == (p.out, if p.crashed then 1 else 0)
  {
    if !IsValidCci(cci) {
      return [CciFormatError], 1;
    }
    var vulns := FindVulns(ckl, cci);
    var crashed;
    out, crashed := PrintProjection(vulns, RuleVerAttr);
    status := if crashed then 1 else 0;
  }
}
