/** Filtering and lookup (main.go `severitytoCVSS`, `filterCVRF`, `contains` and the loop
    of `getAffectedAdvisories`). The criteria, package globals in the source, are the
    fields of a `Filter` object. */
module Filter {
  import opened Wrappers
  import opened Strings
  import opened Json
  import opened Document
  import opened Cvrf
  import opened Score

  /** main.go `contains`: some element, once trimmed, equals `target`. */
  function Contains(slice: seq<string>, target: string): (r: bool)
    ensures r <==> exists i :: 0 <= i < |slice| && TrimSpace(slice[i]) == target
  {
    if slice == [] then false
    else TrimSpace(slice[0]) == target || Contains(slice[1..], target)
  }

  /** The identifier an affected product version is listed under: `trim(product)-trim(version)`. */
  function ProductID(product: string, version: string): string
  {
    TrimSpace(product) + "-" + TrimSpace(version)
  }

  /** The score of an advisory, as both filters read it. */
  function ScoreOf(a: CVRF): real
  {
    ParseScore(a.vulnerability.cvssScoreSets.scoreSetV3.baseScoreV3)
  }

  /** The score test: an advisory is kept unless its score is below `lo` or above `hi`. */
  predicate InBand(score: real, lo: real, hi: real)
  {
    !(score < lo || score > hi)
  }

  /** The product-type test: with no requested types there is no condition; otherwise some
      requested type must equal, exactly, the name of an immediate child of the top-level
      branch. */
  predicate ProductTypeOk(a: CVRF, productTypes: seq<string>)
  {
    |productTypes| == 0 ||
    exists i :: 0 <= i < |productTypes| && Offers(a.productTree.branch.branch, productTypes[i])
  }

  /** Some product of the list is named `productType`, exactly. */
  predicate Offers(products: seq<ProductBranch>, productType: string)
  {
    OffersBefore(products, productType, |products|)
  }

  /** Some product among the first `n` is named `productType`. */
  predicate OffersBefore(products: seq<ProductBranch>, productType: string, n: nat)
    requires n <= |products|
  {
    exists j :: 0 <= j < n && products[j].name == productType
  }

  /** Some requested type among the first `n` is offered. */
  predicate AnyOfferedBefore(products: seq<ProductBranch>, productTypes: seq<string>, n: nat)
    requires n <= |productTypes|
  {
    exists i :: 0 <= i < n && Offers(products, productTypes[i])
  }

  lemma OffersBeforeStep(products: seq<ProductBranch>, productType: string, n: nat)
    requires n < |products|
    ensures OffersBefore(products, productType, n + 1)
            <==> OffersBefore(products, productType, n) || products[n].name == productType
  {
  }

  lemma AnyOfferedBeforeStep(products: seq<ProductBranch>, productTypes: seq<string>, n: nat)
    requires n < |productTypes|
    ensures AnyOfferedBefore(products, productTypes, n + 1)
            <==> AnyOfferedBefore(products, productTypes, n) || Offers(products, productTypes[n])
  {
  }

  /** What `filterCVRF` decides for an advisory under the criteria `lo`, `hi`, `productTypes`. */
  predicate Matches(a: CVRF, lo: real, hi: real, productTypes: seq<string>)
  {
    InBand(ScoreOf(a), lo, hi) && ProductTypeOk(a, productTypes)
  }

  /** One cached advisory file read the way `getAffectedAdvisories` reads it: key stripping,
      `json.Unmarshal` (the parameter `unmarshal`), the envelope check and pre-pass, and
      the generic decoder (the parameter `decode`). */
  function LoadAdvisory(file: string, unmarshal: string -> Result<map<string, J>>,
                        decode: map<string, J> -> Result<CVRF>): Result<CVRF>
  {
    match unmarshal(StripKeys(file))
    case Err(e) => Err(e)
    case Ok(raw) =>
      match Load(raw)
      case Err(e) => Err(e)
      case Ok(doc) => decode(doc)
  }

  /** An advisory is reported for `id` when its product identifiers contain `id` and its
      score is in the band. */
  predicate Selected(a: CVRF, id: string, lo: real, hi: real)
  {
    Contains(a.vulnerability.productStatuses.status.productID, id) && InBand(ScoreOf(a), lo, hi)
  }

  /** The result of `getAffectedAdvisories` over `files` in order: the first file that fails
      to load is the error; otherwise the selected advisories in file order. */
  function Affected(files: seq<string>, id: string, lo: real, hi: real,
                    unmarshal: string -> Result<map<string, J>>,
                    decode: map<string, J> -> Result<CVRF>): Result<seq<CVRF>>
  {
    if files == [] then Ok([])
    else
      match LoadAdvisory(files[0], unmarshal, decode)
      case Err(e) => Err(e)
      case Ok(a) =>
        match Affected(files[1..], id, lo, hi, unmarshal, decode)
        case Err(e) => Err(e)
        case Ok(rest) => Ok(if Selected(a, id, lo, hi) then [a] + rest else rest)
  }

  /** `acc` put in front of a result, errors passing through. */
  function Prepend(acc: seq<CVRF>, r: Result<seq<CVRF>>): Result<seq<CVRF>>
  {
    match r
    case Ok(rest) => Ok(acc + rest)
    case Err(e) => Err(e)
  }

  /** The filter criteria: an inclusive score band and the product types asked for. */
  class Filter {
    var minScore: real
    var maxScore: real
    var productTypes: seq<string>

    /** The criteria as the command line sets them (defaults 0.0, 10.0 and no types). */
    constructor (minScore: real, maxScore: real, productTypes: seq<string>)
      ensures this.minScore == minScore && this.maxScore == maxScore
      ensures this.productTypes == productTypes
    {
      this.minScore := minScore;
      this.maxScore := maxScore;
      this.productTypes := productTypes;
    }

    /** main.go `severitytoCVSS`: a known label, in any letter case, sets the band of the
        rating scale; any other label leaves the band as it was. */
    method SeverityToCVSS(severity: string)
      modifies this
      ensures SeverityBand(severity).Some? ==> (minScore, maxScore) == SeverityBand(severity).value
      ensures SeverityBand(severity).None? ==> minScore == old(minScore) && maxScore == old(maxScore)
      ensures productTypes == old(productTypes)
    {
      var s := ToLower(severity);
      if s == "critical" {
        minScore, maxScore := 9.0, 10.0;
      } else if s == "high" {
        minScore, maxScore := 7.0, 8.9;
      } else if s == "medium" {
        minScore, maxScore := 4.0, 6.9;
      } else if s == "low" {
        minScore, maxScore := 0.1, 3.9;
      }
    }

    /** main.go `filterCVRF`: the score test, then the product-type loop setting a flag. */
    method FilterCVRF(advisory: CVRF) returns (ok: bool)
      ensures ok == Matches(advisory, minScore, maxScore, productTypes)
    {
      var types := productTypes;
      var cvssScore := ParseScore(advisory.vulnerability.cvssScoreSets.scoreSetV3.baseScoreV3);
      if cvssScore < minScore || cvssScore > maxScore {
        return false;
      }
      if |types| > 0 {
        var products := advisory.productTree.branch.branch;
        var matchedProduct := false;
        for i := 0 to |types|
          invariant matchedProduct <==> AnyOfferedBefore(products, types, i)
        {
          for j := 0 to |products|
            invariant matchedProduct <==>
              AnyOfferedBefore(products, types, i) || OffersBefore(products, types[i], j)
          {
            OffersBeforeStep(products, types[i], j);
            if products[j].name == types[i] {
              matchedProduct := true;
            }
          }
          AnyOfferedBeforeStep(products, types, i);
        }
        if !matchedProduct {
          return false;
        }
      }
      return true;
    }

    /** The loop of main.go `getAffectedAdvisories` over the cached files (given here as their
        contents, in the order the glob lists them): stop at the first file that fails to
        load, skip advisories that do not list `trim(product)-trim(version)` or whose score
        is out of band, and collect the rest in order. */
    method GetAffectedAdvisories(product: string, version: string, files: seq<string>,
                                 unmarshal: string -> Result<map<string, J>>,
                                 decode: map<string, J> -> Result<CVRF>)
      returns (r: Result<seq<CVRF>>)
      ensures r == Affected(files, ProductID(product, version), minScore, maxScore, unmarshal, decode)
    {
      var productID := ProductID(product, version);
      var lo, hi := minScore, maxScore;
      var matching: seq<CVRF> := [];
      assert files[0..] == files;
      PrependNothing(Affected(files, productID, lo, hi, unmarshal, decode));
      for i := 0 to |files|
        invariant Affected(files, productID, lo, hi, unmarshal, decode)
                  == Prepend(matching, Affected(files[i..], productID, lo, hi, unmarshal, decode))
      {
        ghost var rest := Affected(files[i + 1..], productID, lo, hi, unmarshal, decode);
        AffectedUnfold(files[i..], productID, lo, hi, unmarshal, decode);
        assert files[i..][0] == files[i] && files[i..][1..] == files[i + 1..];
        var advisory := LoadAdvisory(files[i], unmarshal, decode);
        if advisory.Err? {
          return Err(advisory.error);
        }
        var a := advisory.value;
        ghost var selected := Selected(a, productID, lo, hi);
        assert Affected(files[i..], productID, lo, hi, unmarshal, decode)
               == Prepend(if selected then [a] else [], rest);
        if !Contains(a.vulnerability.productStatuses.status.productID, productID) {
          AppendAssoc(matching, [], rest);
          assert matching + [] == matching;
          continue;
        }
        var score := ParseScore(a.vulnerability.cvssScoreSets.scoreSetV3.baseScoreV3);
        if score < lo || score > hi {
          AppendAssoc(matching, [], rest);
          assert matching + [] == matching;
          continue;
        }
        AppendAssoc(matching, [a], rest);
        matching := matching + [a];
      }
      assert files[|files|..] == [];
      assert matching + [] == matching;
      return Ok(matching);
    }
  }

  /** One step of `Affected`, stated once so that callers need not unfold the loader. */
  lemma AffectedUnfold(files: seq<string>, id: string, lo: real, hi: real,
                       unmarshal: string -> Result<map<string, J>>,
                       decode: map<string, J> -> Result<CVRF>)
    requires files != []
    ensures var l := LoadAdvisory(files[0], unmarshal, decode);
            Affected(files, id, lo, hi, unmarshal, decode) ==
              if l.Err? then Err(l.error)
              else Prepend(if Selected(l.value, id, lo, hi) then [l.value] else [],
                           Affected(files[1..], id, lo, hi, unmarshal, decode))
  {
    var rest := Affected(files[1..], id, lo, hi, unmarshal, decode);
    if rest.Ok? {
      assert [] + rest.value == rest.value;
    }
  }

  lemma PrependNothing(r: Result<seq<CVRF>>)
    ensures Prepend([], r) == r
  {
    if r.Ok? {
      assert [] + r.value == r.value;
    }
  }

  lemma AppendAssoc(acc: seq<CVRF>, x: seq<CVRF>, r: Result<seq<CVRF>>)
    ensures Prepend(acc, Prepend(x, r)) == Prepend(acc + x, r)
  {
    if r.Ok? {
      assert acc + (x + r.value) == (acc + x) + r.value;
    }
  }

  // ----- what the lookup and the filters promise -----

  /** Every advisory returned for `id` lists `id` among its product identifiers and has a
      score in the band. */
  lemma {:induction false} AffectedSound(files: seq<string>, id: string, lo: real, hi: real,
                                          unmarshal: string -> Result<map<string, J>>,
                                          decode: map<string, J> -> Result<CVRF>)
    ensures var r := Affected(files, id, lo, hi, unmarshal, decode);
            r.Ok? ==> forall k :: 0 <= k < |r.value| ==> Selected(r.value[k], id, lo, hi)
  {
    if files != [] {
      AffectedSound(files[1..], id, lo, hi, unmarshal, decode);
    }
  }

  /** The lookup fails exactly when some file fails to load; when it succeeds, every loaded
      advisory that is selected is returned. */
  lemma {:induction false} AffectedComplete(files: seq<string>, id: string, lo: real, hi: real,
                                             unmarshal: string -> Result<map<string, J>>,
                                             decode: map<string, J> -> Result<CVRF>)
    ensures var r := Affected(files, id, lo, hi, unmarshal, decode);
            r.Err? <==> exists i :: 0 <= i < |files| && LoadAdvisory(files[i], unmarshal, decode).Err?
    ensures var r := Affected(files, id, lo, hi, unmarshal, decode);
            r.Ok? ==> forall i :: 0 <= i < |files| && Selected(LoadAdvisory(files[i], unmarshal, decode).value, id, lo, hi)
                                  ==> LoadAdvisory(files[i], unmarshal, decode).value in r.value
  {
    if files != [] {
      AffectedComplete(files[1..], id, lo, hi, unmarshal, decode);
      assert forall i :: 1 <= i < |files| ==> files[i] == files[1..][i - 1];
    }
  }

  /** The identifier is built from the trimmed product and version, so surrounding white
      space on either argument does not change it. */
  lemma ProductIDTrims(product: string, version: string)
    ensures ProductID(TrimSpace(product), TrimSpace(version)) == ProductID(product, version)
  {
    TrimSpaceIdempotent(product);
    TrimSpaceIdempotent(version);
  }

  /** An entry that neither starts nor ends with white space. */
  predicate Unpadded(s: string)
  {
    s == [] || (!IsSpace(s[0]) && !IsSpace(s[|s| - 1]))
  }

  /** The identifier of an unpadded product and version is their plain join. */
  lemma IdOf(product: string, version: string)
    requires Unpadded(product) && Unpadded(version)
    ensures ProductID(product, version) == product + "-" + version
  {
    TrimSpaceOfTrimmed(product);
    TrimSpaceOfTrimmed(version);
  }

  /** On a list whose entries carry no surrounding white space, the lookup is plain
      membership. */
  lemma ContainsUnpadded(slice: seq<string>, target: string)
    requires forall i :: 0 <= i < |slice| ==> Unpadded(slice[i])
    ensures Contains(slice, target) <==> target in slice
  {
  }

  /** The lookup is an exact string test: the identifier of version 6.4.1 is not found in a
      list holding only 6.4.10, nor the other way round, and nothing is found in an empty list. */
  lemma ExactMatchOnly()
    ensures !Contains(["FortiOS-6.4.10"], ProductID("FortiOS", "6.4.1"))
    ensures !Contains(["FortiOS-6.4.1"], ProductID("FortiOS", "6.4.10"))
    ensures forall target :: !Contains([], target)
  {
    IdOf("FortiOS", "6.4.1");
    IdOf("FortiOS", "6.4.10");
    assert "FortiOS-6.4.1" != "FortiOS-6.4.10";
    ContainsUnpadded(["FortiOS-6.4.10"], ProductID("FortiOS", "6.4.1"));
    ContainsUnpadded(["FortiOS-6.4.1"], ProductID("FortiOS", "6.4.10"));
  }

  /* The four expectations of the product-lookup tests, stated against a stand-in list of
     affected identifiers (the advisory files themselves are not part of this model). */

  /** FortiClientEMS 7.2.2 is found in a list naming it. */
  lemma FixtureClientEMSListed()
    ensures Contains(["FortiClientEMS-7.2.0", "FortiClientEMS-7.2.2"], ProductID("FortiClientEMS", "7.2.2"))
  {
    IdOf("FortiClientEMS", "7.2.2");
    assert "FortiClientEMS" + "-" + "7.2.2" == "FortiClientEMS-7.2.2";
    assert ProductID("FortiClientEMS", "7.2.2") == ["FortiClientEMS-7.2.0", "FortiClientEMS-7.2.2"][1];
    ContainsUnpadded(["FortiClientEMS-7.2.0", "FortiClientEMS-7.2.2"], ProductID("FortiClientEMS", "7.2.2"));
  }

  /** FortiClientEMS 7.2.3 is not found in the same list. */
  lemma FixtureClientEMSUnlisted()
    ensures !Contains(["FortiClientEMS-7.2.0", "FortiClientEMS-7.2.2"], ProductID("FortiClientEMS", "7.2.3"))
  {
    IdOf("FortiClientEMS", "7.2.3");
    assert "FortiClientEMS-7.2.3" != "FortiClientEMS-7.2.0" && "FortiClientEMS-7.2.3" != "FortiClientEMS-7.2.2";
    assert ProductID("FortiClientEMS", "7.2.3") !in ["FortiClientEMS-7.2.0", "FortiClientEMS-7.2.2"];
    ContainsUnpadded(["FortiClientEMS-7.2.0", "FortiClientEMS-7.2.2"], ProductID("FortiClientEMS", "7.2.3"));
  }

  /** FortiOS 6.4.10 is found in a list naming it. */
  lemma FixtureFortiOSListed()
    ensures Contains(["FortiOS-6.4.9", "FortiOS-6.4.10"], ProductID("FortiOS", "6.4.10"))
  {
    IdOf("FortiOS", "6.4.10");
    assert "FortiOS" + "-" + "6.4.10" == "FortiOS-6.4.10";
    assert ProductID("FortiOS", "6.4.10") == ["FortiOS-6.4.9", "FortiOS-6.4.10"][1];
    ContainsUnpadded(["FortiOS-6.4.9", "FortiOS-6.4.10"], ProductID("FortiOS", "6.4.10"));
  }

  /** FortiOS 6.4.11 is not found in the same list. */
  lemma FixtureFortiOSUnlisted()
    ensures !Contains(["FortiOS-6.4.9", "FortiOS-6.4.10"], ProductID("FortiOS", "6.4.11"))
  {
    IdOf("FortiOS", "6.4.11");
    assert "FortiOS-6.4.11" != "FortiOS-6.4.9" && "FortiOS-6.4.11" != "FortiOS-6.4.10";
    assert ProductID("FortiOS", "6.4.11") !in ["FortiOS-6.4.9", "FortiOS-6.4.10"];
    ContainsUnpadded(["FortiOS-6.4.9", "FortiOS-6.4.10"], ProductID("FortiOS", "6.4.11"));
  }

  /** A one-entry list holds exactly its trimmed entry. */
  lemma ContainsSingle(entry: string, target: string)
    ensures Contains([entry], target) <==> TrimSpace(entry) == target
  {
    assert [entry][1..] == [];
  }

  /** Surrounding white space on a listed entry does not hide it. */
  lemma PaddedEntryFound(x: string)
    requires Unpadded(x)
    ensures Contains([" " + x + " "], x)
  {
    TrimSpacePadded(" ", x, " ");
    TrimSpaceOfTrimmed(x);
    ContainsSingle(" " + x + " ", x);
  }

  /** With the full band 0.0..10.0 and no product types, every advisory whose score parses
      to a value in that range is kept. */
  lemma FullRangeKeeps(a: CVRF)
    requires ParseDecimal(a.vulnerability.cvssScoreSets.scoreSetV3.baseScoreV3).Some?
    requires 0.0 <= ScoreOf(a) <= 10.0
    ensures Matches(a, 0.0, 10.0, [])
  {
  }

  /** An unparsable score counts as 0, so it fails every band with a positive minimum. */
  lemma UnparsableScoreFails(a: CVRF, lo: real, hi: real, productTypes: seq<string>)
    requires ParseDecimal(a.vulnerability.cvssScoreSets.scoreSetV3.baseScoreV3).None?
    requires lo > 0.0
    ensures !Matches(a, lo, hi, productTypes)
  {
  }

  /** The product-type test reads only the names of the second level: advisories that agree
      on those names (whatever their version nodes) are filtered alike. */
  lemma ProductTypeReadsSecondLevel(a: CVRF, b: CVRF, productTypes: seq<string>)
    requires |a.productTree.branch.branch| == |b.productTree.branch.branch|
    requires forall j :: 0 <= j < |a.productTree.branch.branch| ==>
               a.productTree.branch.branch[j].name == b.productTree.branch.branch[j].name
    ensures ProductTypeOk(a, productTypes) == ProductTypeOk(b, productTypes)
  {
  }
}
