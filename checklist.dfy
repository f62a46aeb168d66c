/**
 * A STIG checklist (`.ckl`) as the checklist tools see it: the VULN
 * records in document order, each with its (VULN_ATTRIBUTE,
 * ATTRIBUTE_DATA) pairs and its three editable fields, and the lookups
 * the tools make on it with XPath.
 */
module Checklist {
  import opened Wrappers
  import opened Text

  /** One STIG_DATA element: the texts of its VULN_ATTRIBUTE and ATTRIBUTE_DATA. */
  datatype StigData = StigData(attribute: string, data: string)

  /** One VULN element. */
  datatype Vuln = Vuln(stigData: seq<StigData>, status: string, comments: string, findingDetails: string)

  const RuleVerAttr: string := "Rule_Ver"
  const RuleIdAttr: string := "Rule_ID"
  const GroupTitleAttr: string := "Group_Title"
  const VulnNumAttr: string := "Vuln_Num"
  const CciRefAttr: string := "CCI_REF"

  /** `//VULN[STIG_DATA[ATTRIBUTE_DATA=x]]` holds for this VULN. */
  predicate HasData(v: Vuln, x: string)
  {
    exists i :: 0 <= i < |v.stigData| && v.stigData[i].data == x
  }

  /** `//VULN[STIG_DATA[VULN_ATTRIBUTE=a and ATTRIBUTE_DATA=x]]` holds for this VULN. */
  predicate HasPair(v: Vuln, attr: string, x: string)
  {
    exists i :: 0 <= i < |v.stigData| && v.stigData[i].attribute == attr && v.stigData[i].data == x
  }

  /** The STIG_DATA elements of the list whose VULN_ATTRIBUTE is `attr`, in order. */
  function EntriesOf(ds: seq<StigData>, attr: string): (r: seq<StigData>)
    ensures forall k :: 0 <= k < |r| ==> r[k].attribute == attr && r[k] in ds
    ensures forall d :: d in ds && d.attribute == attr ==> d in r
    ensures |ds| == 1 ==> r == (if ds[0].attribute == attr then ds else [])
  {
    if |ds| == 0 then []
    else
      var init, d := ds[..|ds| - 1], ds[|ds| - 1];
      assert forall e :: e in ds ==> e in init || e == d;
      EntriesOf(init, attr) + (if d.attribute == attr then [d] else [])
  }

  /** Document order: the entries picked from two consecutive runs of
      STIG_DATA are those of the first run, then those of the second. */
  lemma {:induction false} EntriesOfAppend(a: seq<StigData>, b: seq<StigData>, attr: string)
    ensures EntriesOf(a + b, attr) == EntriesOf(a, attr) + EntriesOf(b, attr)
    decreases |b|
  {
    if |b| == 0 {
      assert a + b == a;
    } else {
      var init, d := b[..|b| - 1], b[|b| - 1];
      assert (a + b)[..|a + b| - 1] == a + init;
      EntriesOfAppend(a, init, attr);
      var tail := if d.attribute == attr then [d] else [];
      assert (EntriesOf(a, attr) + EntriesOf(init, attr)) + tail == EntriesOf(a, attr) + (EntriesOf(init, attr) + tail);
    }
  }

  /** The first entry picked is the first STIG_DATA element with the attribute. */
  lemma {:induction false} EntriesOfFirst(ds: seq<StigData>, attr: string)
    requires EntriesOf(ds, attr) != []
    ensures exists i :: 0 <= i < |ds| && ds[i] == EntriesOf(ds, attr)[0]
                        && forall j :: 0 <= j < i ==> ds[j].attribute != attr
  {
    var init, d := ds[..|ds| - 1], ds[|ds| - 1];
    if EntriesOf(init, attr) != [] {
      EntriesOfFirst(init, attr);
      var i :| 0 <= i < |init| && init[i] == EntriesOf(init, attr)[0]
               && forall j :: 0 <= j < i ==> init[j].attribute != attr;
      assert ds[i] == init[i];
      assert forall j :: 0 <= j < i ==> ds[j] == init[j];
    } else {
      assert forall j :: 0 <= j < |init| ==> init[j] in init;
      assert forall j :: 0 <= j < |ds| - 1 ==> ds[j] == init[j];
    }
  }

  /** `vuln.xpath("STIG_DATA[VULN_ATTRIBUTE=a]/ATTRIBUTE_DATA")`, as texts. */
  function AttrValues(v: Vuln, attr: string): (r: seq<string>)
    ensures |r| == |EntriesOf(v.stigData, attr)|
    ensures forall k :: 0 <= k < |r| ==> r[k] == EntriesOf(v.stigData, attr)[k].data
    ensures forall x :: x in r <==> exists i :: 0 <= i < |v.stigData| && v.stigData[i].attribute == attr && v.stigData[i].data == x
  {
    var es := EntriesOf(v.stigData, attr);
    var r := seq(|es|, k requires 0 <= k < |es| => es[k].data);
    forall x | x in r
      ensures exists i :: 0 <= i < |v.stigData| && v.stigData[i].attribute == attr && v.stigData[i].data == x
    {
      var k :| 0 <= k < |es| && r[k] == x;
      assert es[k] in v.stigData;
    }
    forall i | 0 <= i < |v.stigData| && v.stigData[i].attribute == attr
      ensures v.stigData[i].data in r
    {
      assert v.stigData[i] in es;
      var k :| 0 <= k < |es| && es[k] == v.stigData[i];
      assert r[k] == v.stigData[i].data;
    }
    r
  }

  /** `vuln.findtext('.//VULN_ATTRIBUTE[.="Rule_Ver"]/../ATTRIBUTE_DATA')`:
      the first Rule_Ver value, or None when there is none. */
  function RuleVer(v: Vuln): (r: Option<string>)
    ensures r.None? <==> AttrValues(v, RuleVerAttr) == []
    ensures r.Some? ==> r.value == AttrValues(v, RuleVerAttr)[0] && HasPair(v, RuleVerAttr, r.value)
  {
    var vs := AttrValues(v, RuleVerAttr);
    if |vs| == 0 then None else Some(vs[0])
  }

  /** The Rule_Ver found is the data of the first STIG_DATA element whose
      attribute is Rule_Ver, and of no other one. */
  lemma RuleVerFirst(v: Vuln, x: string)
    ensures RuleVer(v) == Some(x) <==>
              exists i :: 0 <= i < |v.stigData| && v.stigData[i] == StigData(RuleVerAttr, x)
                          && forall j :: 0 <= j < i ==> v.stigData[j].attribute != RuleVerAttr
  {
    var ds := v.stigData;
    var es := EntriesOf(ds, RuleVerAttr);
    if es != [] {
      EntriesOfFirst(ds, RuleVerAttr);
      var i0 :| 0 <= i0 < |ds| && ds[i0] == es[0] && forall j :: 0 <= j < i0 ==> ds[j].attribute != RuleVerAttr;
      assert es[0] in es;
      assert AttrValues(v, RuleVerAttr)[0] == es[0].data;
      assert ds[i0] == StigData(RuleVerAttr, es[0].data);
      forall i | 0 <= i < |ds| && ds[i].attribute == RuleVerAttr && forall j :: 0 <= j < i ==> ds[j].attribute != RuleVerAttr
        ensures i == i0
      {
      }
    } else {
      forall i | 0 <= i < |ds| ensures ds[i].attribute != RuleVerAttr {
        assert ds[i] in ds;
      }
    }
  }

  /** `find_vulns`: the VULNs holding `x` as any ATTRIBUTE_DATA, in document order. */
  function FindVulns(ckl: seq<Vuln>, x: string): (r: seq<Vuln>)
    ensures |r| <= |ckl|
    ensures forall k :: 0 <= k < |r| ==> r[k] in ckl && HasData(r[k], x)
    ensures forall v :: v in ckl && HasData(v, x) ==> v in r
    ensures |ckl| == 1 ==> r == (if HasData(ckl[0], x) then ckl else [])
  {
    if |ckl| == 0 then []
    else
      var init, v := ckl[..|ckl| - 1], ckl[|ckl| - 1];
      assert forall w :: w in ckl ==> w in init || w == v;
      FindVulns(init, x) + (if HasData(v, x) then [v] else [])
  }

  /** Document order: the VULNs found in two consecutive runs of VULNs are
      those of the first run, then those of the second. */
  lemma {:induction false} FindVulnsAppend(a: seq<Vuln>, b: seq<Vuln>, x: string)
    ensures FindVulns(a + b, x) == FindVulns(a, x) + FindVulns(b, x)
    decreases |b|
  {
    if |b| == 0 {
      assert a + b == a;
    } else {
      var init, v := b[..|b| - 1], b[|b| - 1];
      assert (a + b)[..|a + b| - 1] == a + init;
      FindVulnsAppend(a, init, x);
      var tail := if HasData(v, x) then [v] else [];
      assert (FindVulns(a, x) + FindVulns(init, x)) + tail == FindVulns(a, x) + (FindVulns(init, x) + tail);
    }
  }

  /** `//VULN[STIG_DATA[VULN_ATTRIBUTE=a and ATTRIBUTE_DATA=x]]/STIG_DATA[VULN_ATTRIBUTE='CCI_REF']`:
      the CCI_REF entries of the VULNs that have the pair, in document order. */
  function CciRefNodes(ckl: seq<Vuln>, attr: string, x: string): (r: seq<StigData>)
    ensures |ckl| == 1 ==> r == (if HasPair(ckl[0], attr, x) then EntriesOf(ckl[0].stigData, CciRefAttr) else [])
  {
    if |ckl| == 0 then []
    else
      var init, v := ckl[..|ckl| - 1], ckl[|ckl| - 1];
      CciRefNodes(init, attr, x) + (if HasPair(v, attr, x) then EntriesOf(v.stigData, CciRefAttr) else [])
  }

  /** The entries selected are exactly the CCI_REF entries of the VULNs that
      have the pair. */
  lemma {:induction false} CciRefNodesMeaning(ckl: seq<Vuln>, attr: string, x: string)
    ensures forall d :: d in CciRefNodes(ckl, attr, x) <==>
              exists k :: 0 <= k < |ckl| && HasPair(ckl[k], attr, x) && d in ckl[k].stigData && d.attribute == CciRefAttr
  {
    if |ckl| > 0 {
      var n := |ckl| - 1;
      var init, v := ckl[..n], ckl[n];
      CciRefNodesMeaning(init, attr, x);
      forall d | d in CciRefNodes(ckl, attr, x)
        ensures exists k :: 0 <= k < |ckl| && HasPair(ckl[k], attr, x) && d in ckl[k].stigData && d.attribute == CciRefAttr
      {
        if d in CciRefNodes(init, attr, x) {
          var k :| 0 <= k < |init| && HasPair(init[k], attr, x) && d in init[k].stigData && d.attribute == CciRefAttr;
          assert ckl[k] == init[k];
        } else {
          assert HasPair(ckl[n], attr, x) && d in ckl[n].stigData && d.attribute == CciRefAttr;
        }
      }
      forall d | exists k :: 0 <= k < |ckl| && HasPair(ckl[k], attr, x) && d in ckl[k].stigData && d.attribute == CciRefAttr
        ensures d in CciRefNodes(ckl, attr, x)
      {
        var k :| 0 <= k < |ckl| && HasPair(ckl[k], attr, x) && d in ckl[k].stigData && d.attribute == CciRefAttr;
        if k < n {
          assert init[k] == ckl[k];
        }
      }
    }
  }

  /** Document order: the entries selected from two consecutive runs of
      VULNs are those of the first run, then those of the second. */
  lemma {:induction false} CciRefNodesAppend(a: seq<Vuln>, b: seq<Vuln>, attr: string, x: string)
    ensures CciRefNodes(a + b, attr, x) == CciRefNodes(a, attr, x) + CciRefNodes(b, attr, x)
    decreases |b|
  {
    if |b| == 0 {
      assert a + b == a;
    } else {
      var init, v := b[..|b| - 1], b[|b| - 1];
      assert b == init + [v];
      assert a + b == (a + init) + [v];
      CciRefNodesAppend(a, init, attr, x);
      CciRefNodesSnoc(a + init, v, attr, x);
      CciRefNodesSnoc(init, v, attr, x);
      var tail := if HasPair(v, attr, x) then EntriesOf(v.stigData, CciRefAttr) else [];
      assert (CciRefNodes(a, attr, x) + CciRefNodes(init, attr, x)) + tail
          == CciRefNodes(a, attr, x) + (CciRefNodes(init, attr, x) + tail);
    }
  }

  /** One more VULN adds its CCI_REF entries when it has the pair. */
  lemma CciRefNodesSnoc(s: seq<Vuln>, v: Vuln, attr: string, x: string)
    ensures CciRefNodes(s + [v], attr, x)
         == CciRefNodes(s, attr, x) + (if HasPair(v, attr, x) then EntriesOf(v.stigData, CciRefAttr) else [])
  {
    assert (s + [v])[..|s|] == s;
  }

  /** The loop `for elem in xpath(...): cci_refs.append(elem.find("ATTRIBUTE_DATA").text)`. */
  method CollectCciRefs(nodes: seq<StigData>) returns (cciRefs: seq<string>)
    ensures |cciRefs| == |nodes|
    ensures forall k :: 0 <= k < |nodes| ==> cciRefs[k] == nodes[k].data
  {
    cciRefs := [];
    for k := 0 to |nodes|
      invariant |cciRefs| == k
      invariant forall j :: 0 <= j < k ==> cciRefs[j] == nodes[j].data
    {
      cciRefs := cciRefs + [nodes[k].data];
    }
  }

  /** The CCI values a lookup prints: every CCI_REF value of the VULNs
      having the pair, in document order. */
  function CciRefs(ckl: seq<Vuln>, attr: string, x: string): (r: seq<string>)
    ensures |r| == |CciRefNodes(ckl, attr, x)|
    ensures forall k :: 0 <= k < |r| ==> r[k] == CciRefNodes(ckl, attr, x)[k].data
  {
    var nodes := CciRefNodes(ckl, attr, x);
    seq(|nodes|, k requires 0 <= k < |nodes| => nodes[k].data)
  }

  /** A CCI value is printed exactly when it is a CCI_REF value of some VULN
      having the pair. */
  lemma CciRefsMeaning(ckl: seq<Vuln>, attr: string, x: string, c: string)
    ensures c in CciRefs(ckl, attr, x) <==>
              exists k, i :: 0 <= k < |ckl| && HasPair(ckl[k], attr, x) && 0 <= i < |ckl[k].stigData|
                && ckl[k].stigData[i] == StigData(CciRefAttr, c)
  {
    CciRefNodesMeaning(ckl, attr, x);
    var refs, nodes := CciRefs(ckl, attr, x), CciRefNodes(ckl, attr, x);
    if c in refs {
      var j :| 0 <= j < |refs| && refs[j] == c;
      var d := nodes[j];
      var k :| 0 <= k < |ckl| && HasPair(ckl[k], attr, x) && d in ckl[k].stigData && d.attribute == CciRefAttr;
      var i :| 0 <= i < |ckl[k].stigData| && ckl[k].stigData[i] == d;
    }
    if exists k, i :: 0 <= k < |ckl| && HasPair(ckl[k], attr, x) && 0 <= i < |ckl[k].stigData|
         && ckl[k].stigData[i] == StigData(CciRefAttr, c) {
      var k, i :| 0 <= k < |ckl| && HasPair(ckl[k], attr, x) && 0 <= i < |ckl[k].stigData|
         && ckl[k].stigData[i] == StigData(CciRefAttr, c);
      var d := ckl[k].stigData[i];
      assert d in nodes;
      var j :| 0 <= j < |nodes| && nodes[j] == d;
      assert refs[j] == c;
    }
  }

  /** The CCI values are printed VULN by VULN in document order: those of
      two consecutive runs of VULNs are those of the first, then those of the
      second; one VULN gives its CCI_REF values in order when it has the
      pair, and none otherwise. */
  lemma CciRefsInOrder(a: seq<Vuln>, b: seq<Vuln>, v: Vuln, attr: string, x: string)
    ensures CciRefs(a + b, attr, x) == CciRefs(a, attr, x) + CciRefs(b, attr, x)
    ensures CciRefs([v], attr, x) == if HasPair(v, attr, x) then AttrValues(v, CciRefAttr) else []
  {
    CciRefNodesAppend(a, b, attr, x);
    var na, nb := CciRefNodes(a, attr, x), CciRefNodes(b, attr, x);
    assert forall k :: 0 <= k < |na| ==> (na + nb)[k] == na[k];
    assert forall k :: |na| <= k < |na| + |nb| ==> (na + nb)[k] == nb[k - |na|];
  }

  /** The lines printed for the CCI values found: ", "-joined when there are
      several, the value alone when there is one, nothing when there is none. */
  function FormatCciRefs(cciRefs: seq<string>): (r: seq<string>)
    ensures r == [] <==> cciRefs == []
    ensures |cciRefs| == 1 ==> r == cciRefs
    ensures |cciRefs| > 1 ==> r == [Join(cciRefs, ", ")]
  {
    if |cciRefs| > 1 then [Join(cciRefs, ", ")]
    else if |cciRefs| == 1 then [cciRefs[0]]
    else []
  }

  /** The printed line always reads back as the values, when none of them holds a comma. */
  lemma FormatCciRefsRoundTrip(cciRefs: seq<string>)
    requires cciRefs != []
    requires forall k :: 0 <= k < |cciRefs| ==> ',' !in cciRefs[k]
    ensures |FormatCciRefs(cciRefs)| == 1 && Split(FormatCciRefs(cciRefs)[0], ", ") == cciRefs
  {
    JoinSplit(cciRefs, ", ");
  }

  /** `is_valid_cci`: `re.match(r"^CCI-\d{6}$", cci)`. Python's `$` also
      matches just before a final newline, so one trailing `\n` is accepted. */
  predicate IsValidCci(cci: string)
  {
    && (|cci| == 10 || (|cci| == 11 && cci[10] == '\n'))
    && cci[..4] == "CCI-"
    && AllDigits(cci[4..10])
  }

  /** The CCI identifier with number `n`. */
  function CciOf(n: nat): (r: string)
    requires n < 1000000
    ensures |r| == 10
  {
    "CCI-" + PadDigits(n, 6)
  }

  /** Every numbered identifier is valid, and its number reads back. */
  lemma CciOfValid(n: nat)
    requires n < 1000000
    ensures IsValidCci(CciOf(n)) && IsValidCci(CciOf(n) + "\n")
    ensures AllDigits(CciOf(n)[4..]) && DigitsValue(CciOf(n)[4..]) == n
  {
    assert CciOf(n)[4..] == PadDigits(n, 6);
    assert (CciOf(n) + "\n")[4..10] == PadDigits(n, 6);
    assert Pow10(6) == 1000000;
    PadDigitsValue(n, 6);
  }

  /** Every valid identifier is a numbered one, possibly followed by a newline. */
  lemma ValidCciIsCciOf(cci: string)
    requires IsValidCci(cci)
    ensures DigitsValue(cci[4..10]) < 1000000
    ensures cci[..10] == CciOf(DigitsValue(cci[4..10]))
  {
    ValuePadDigits(cci[4..10]);
    assert Pow10(6) == 1000000;
    assert cci[..10] == cci[..4] + cci[4..10];
  }

  /** The first position whose VULN lacks a value for `attr`, or the length. */
  function FirstMissing(vulns: seq<Vuln>, attr: string): (n: nat)
    ensures n <= |vulns|
    ensures forall k :: 0 <= k < n ==> AttrValues(vulns[k], attr) != []
    ensures n < |vulns| ==> AttrValues(vulns[n], attr) == []
  {
    if |vulns| == 0 || AttrValues(vulns[0], attr) == [] then 0
    else 1 + FirstMissing(vulns[1..], attr)
  }

  /** What printing `vuln.xpath(".../ATTRIBUTE_DATA")[0].text` for each VULN
      gives: the first value of `attr` of each VULN, up to the first VULN
      without one, where the indexing raises and the run ends. */
  function Projection(vulns: seq<Vuln>, attr: string): (r: Report)
    ensures |r.out| <= |vulns|
    ensures forall k :: 0 <= k < |r.out| ==> AttrValues(vulns[k], attr) != [] && r.out[k] == AttrValues(vulns[k], attr)[0]
    ensures r.crashed <==> exists k :: 0 <= k < |vulns| && AttrValues(vulns[k], attr) == []
    ensures !r.crashed ==> |r.out| == |vulns| && forall k :: 0 <= k < |vulns| ==> r.out[k] == AttrValues(vulns[k], attr)[0]
    ensures r.crashed ==> |r.out| < |vulns| && AttrValues(vulns[|r.out|], attr) == []
  {
    var n := FirstMissing(vulns, attr);
    Report(seq(n, k requires 0 <= k < n => AttrValues(vulns[k], attr)[0]), n < |vulns|)
  }

  /** The printing loop of the lookups. */
  method PrintProjection(vulns: seq<Vuln>, attr: string) returns (out: seq<string>, crashed: bool)
    ensures Report(out, crashed) == Projection(vulns, attr)
  {
    out, crashed := [], false;
    var i := 0;
    while i < |vulns|
      invariant 0 <= i <= |vulns|
      invariant forall k :: 0 <= k < i ==> AttrValues(vulns[k], attr) != []
      invariant out == seq(i, k requires 0 <= k < i => AttrValues(vulns[k], attr)[0])
    {
      var found := AttrValues(vulns[i], attr);
      if |found| == 0 {
        crashed := true;
        break;
      }
      out := out + [found[0]];
      i := i + 1;
    }
  }
}
