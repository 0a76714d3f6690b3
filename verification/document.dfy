/** The shape repair main.go `getAffectedAdvisories` applies to each cached advisory
    before typed decoding: textual key stripping, the `cvrfdoc` envelope check, the
    cardinality pre-pass and the product-tree repair. */
module Document {
  import opened Wrappers
  import opened Strings
  import opened Json
  import opened Coerce
  import opened Branches

  /** The four textual rewrites of the raw JSON text: namespace prefixes `cvrf-common:` and
      `cvrf:` are deleted, a quote followed by `@` loses the `@`, and the key `"#text"`
      becomes `"text"`. */
  function StripKeys(text: string): string
  {
    var t1 := ReplaceAll(text, "cvrf-common:", "");
    var t2 := ReplaceAll(t1, "cvrf:", "");
    var t3 := ReplaceAll(t2, "\"@", "\"");
    ReplaceAll(t3, "\"#text\"", "\"text\"")
  }

  /** Text that holds none of the four markers passes through the stripping unchanged. */
  lemma StripKeysClean(text: string)
    requires forall i: nat :: !OccursAt(text, "cvrf-common:", i)
    requires forall i: nat :: !OccursAt(text, "cvrf:", i)
    requires forall i: nat :: !OccursAt(text, "\"@", i)
    requires forall i: nat :: !OccursAt(text, "\"#text\"", i)
    ensures StripKeys(text) == text
  {
    ReplaceAllAbsent(text, "cvrf-common:", "");
    ReplaceAllAbsent(text, "cvrf:", "");
    ReplaceAllAbsent(text, "\"@", "\"");
    ReplaceAllAbsent(text, "\"#text\"", "\"text\"");
  }

  /** A key name in which none of the markers can start or end: no `:`, `@` or `#`. */
  predicate PlainKey(k: string) {
    ':' !in k && '@' !in k && '#' !in k
  }

  /** A quoted plain key `"k"` passes a rewrite whose pattern holds a rune `k` lacks. */
  lemma QuotedKeyKept(k: string, p: string, q: string, j: nat)
    requires 1 <= j < |p|
    requires p[j] !in k && p[j] != '"'
    ensures ReplaceAll("\"" + k + "\"", p, q) == "\"" + k + "\""
  {
    assert "\"" + k + "\"" == "\"" + (k + "\"");
    ReplaceAllWithout("\"", k + "\"", p, q, j);
  }

  /** A quoted key that starts with a deleted prefix loses it. */
  lemma QuotedPrefixDropped(p: string, k: string, j: nat)
    requires p != [] && p[0] != '"'
    requires j < |p| && p[j] !in k && p[j] != '"'
    ensures ReplaceAll("\"" + p + k + "\"", p, "") == "\"" + k + "\""
  {
    var rest := k + "\"";
    assert "\"" + p + k + "\"" == ['"'] + (p + rest);
    ReplaceAllSkipRune('"', p + rest, p, "");
    ReplaceAllFront(p, rest, "", j);
    assert "" + rest == rest;
    assert ['"'] + rest == "\"" + k + "\"";
  }

  /** An attribute key `"@k"` loses its `@`. */
  lemma StripKeysAttribute(k: string)
    requires PlainKey(k)
    ensures StripKeys("\"@" + k + "\"") == "\"" + k + "\""
  {
    var s := "\"@" + k + "\"";
    var out := "\"" + k + "\"";
    var t1 := ReplaceAll(s, "cvrf-common:", "");
    assert t1 == s by {
      assert s == "\"@" + (k + "\"");
      ReplaceAllWithout("\"@", k + "\"", "cvrf-common:", "", 11);
    }
    var t2 := ReplaceAll(t1, "cvrf:", "");
    assert t2 == s by {
      assert s == "\"@" + (k + "\"");
      ReplaceAllWithout("\"@", k + "\"", "cvrf:", "", 4);
    }
    var t3 := ReplaceAll(t2, "\"@", "\"");
    assert t3 == out by {
      assert s == "\"@" + (k + "\"");
      ReplaceAllFront("\"@", k + "\"", "\"", 1);
      assert "\"" + (k + "\"") == out;
    }
    assert ReplaceAll(t3, "\"#text\"", "\"text\"") == out by { QuotedKeyKept(k, "\"#text\"", "\"text\"", 1); }
  }

  /** A key `"cvrf:k"` loses its namespace prefix. */
  lemma StripKeysNamespace(k: string)
    requires PlainKey(k)
    ensures StripKeys("\"cvrf:" + k + "\"") == "\"" + k + "\""
  {
    var s := "\"cvrf:" + k + "\"";
    var out := "\"" + k + "\"";
    var t1 := ReplaceAll(s, "cvrf-common:", "");
    assert t1 == s by {
      assert s == "\"cvrf:" + (k + "\"");
      ReplaceAllWithout("\"cvrf:", k + "\"", "cvrf-common:", "", 11);
    }
    var t2 := ReplaceAll(t1, "cvrf:", "");
    assert t2 == out by {
      assert s == "\"" + "cvrf:" + k + "\"";
      QuotedPrefixDropped("cvrf:", k, 4);
    }
    var t3 := ReplaceAll(t2, "\"@", "\"");
    assert t3 == out by { QuotedKeyKept(k, "\"@", "\"", 1); }
    assert ReplaceAll(t3, "\"#text\"", "\"text\"") == out by { QuotedKeyKept(k, "\"#text\"", "\"text\"", 1); }
  }

  /** A key `"cvrf-common:k"` loses its namespace prefix. */
  lemma StripKeysCommonNamespace(k: string)
    requires PlainKey(k)
    ensures StripKeys("\"cvrf-common:" + k + "\"") == "\"" + k + "\""
  {
    var s := "\"cvrf-common:" + k + "\"";
    var out := "\"" + k + "\"";
    var t1 := ReplaceAll(s, "cvrf-common:", "");
    assert t1 == out by {
      assert s == "\"" + "cvrf-common:" + k + "\"";
      QuotedPrefixDropped("cvrf-common:", k, 11);
    }
    var t2 := ReplaceAll(t1, "cvrf:", "");
    assert t2 == out by { QuotedKeyKept(k, "cvrf:", "", 4); }
    var t3 := ReplaceAll(t2, "\"@", "\"");
    assert t3 == out by { QuotedKeyKept(k, "\"@", "\"", 1); }
    assert ReplaceAll(t3, "\"#text\"", "\"text\"") == out by { QuotedKeyKept(k, "\"#text\"", "\"text\"", 1); }
  }

  /** The first three rewrites leave a quoted `k` holding neither `:` nor `@` as it is. */
  lemma QuotedKeyPassesPrefixes(k: string)
    requires ':' !in k && '@' !in k
    ensures var s := "\"" + k + "\"";
      ReplaceAll(ReplaceAll(ReplaceAll(s, "cvrf-common:", ""), "cvrf:", ""), "\"@", "\"") == s
  {
    QuotedKeyKept(k, "cvrf-common:", "", 11);
    QuotedKeyKept(k, "cvrf:", "", 4);
    QuotedKeyKept(k, "\"@", "\"", 1);
  }

  /** The text key `"#text"` is renamed `"text"`. */
  lemma StripKeysText()
    ensures StripKeys("\"#text\"") == "\"text\""
  {
    var s := "\"#text\"";
    QuotedKeyPassesPrefixes("#text");
    assert "\"" + "#text" + "\"" == s;
    assert s == s + [];
    ReplaceAllFront(s, [], "\"text\"", 1);
    assert "\"text\"" + [] == "\"text\"";
  }

  /** `toStringSlice` applied to `m[key]` when the key is present; an absent key stays absent. */
  function StringsField(m: map<string, J>, key: string): map<string, J>
  {
    if key in m then m[key := StoreStrings(StringSliceOf(m[key]))] else m
  }

  /** `toInterfaceSlice` applied to `m[key]` when the key is present. */
  function ListField(m: map<string, J>, key: string): map<string, J>
  {
    if key in m then m[key := StoreList(ToInterfaceSlice(m[key]))] else m
  }

  /** `ListField` applied inside the object stored under `outer`, when there is one. */
  function ListIn(m: map<string, J>, outer: string, inner: string): map<string, J>
  {
    if HasObject(m, outer) then m[outer := JObj(ListField(m[outer].fields, inner))] else m
  }

  /** `ProductStatuses.Status.ProductID` coerced to a list of strings, when both parents are objects. */
  function CoerceStatuses(vuln: map<string, J>): map<string, J>
  {
    if HasObject(vuln, "ProductStatuses") && HasObject(vuln["ProductStatuses"].fields, "Status") then
      var ps := vuln["ProductStatuses"].fields;
      vuln["ProductStatuses" := JObj(ps["Status" := JObj(StringsField(ps["Status"].fields, "ProductID"))])]
    else vuln
  }

  /** The coercions inside `Vulnerability`: `CVE`, `ProductStatuses.Status.ProductID` and
      `References.Reference`. */
  function CoerceVulnerability(vuln: map<string, J>): map<string, J>
  {
    ListIn(CoerceStatuses(StringsField(vuln, "CVE")), "References", "Reference")
  }

  /** The whole pre-pass over the `cvrfdoc` object. */
  function PrePass(doc: map<string, J>): map<string, J>
  {
    var d1 := if HasObject(doc, "Vulnerability")
              then doc["Vulnerability" := JObj(CoerceVulnerability(doc["Vulnerability"].fields))]
              else doc;
    var d2 := ListIn(d1, "DocumentNotes", "Note");
    var d3 := ListIn(d2, "DocumentReferences", "Reference");
    var d4 := ListIn(d3, "Acknowledgments", "Acknowledgment");
    if HasObject(d4, "ProductTree")
    then d4["ProductTree" := JObj(NormalizeProductTree(d4["ProductTree"].fields))]
    else d4
  }

  /** The envelope check and pre-pass: a document whose top-level `cvrfdoc` is missing or
      not an object is rejected; otherwise its repaired `cvrfdoc` object is returned. */
  function Load(raw: map<string, J>): (r: Result<map<string, J>>)
    ensures r.Err? <==> !HasObject(raw, "cvrfdoc")
    ensures r.Ok? ==> r.value == PrePass(raw["cvrfdoc"].fields)
  {
    if HasObject(raw, "cvrfdoc") then Ok(PrePass(raw["cvrfdoc"].fields))
    else Err("invalid cvrf document")
  }

  // ----- what the pre-pass keeps -----

  lemma ListInKeys(m: map<string, J>, outer: string, inner: string)
    ensures ListIn(m, outer, inner).Keys == m.Keys
    ensures forall k :: k in m && k != outer ==> ListIn(m, outer, inner)[k] == m[k]
    ensures HasObject(m, outer) ==>
      (HasObject(ListIn(m, outer, inner), outer)
       && ListIn(m, outer, inner)[outer].fields.Keys == m[outer].fields.Keys)
  {
  }

  /** The pre-pass adds and removes no top-level key: absent fields stay absent. */
  lemma PrePassKeys(doc: map<string, J>)
    ensures PrePass(doc).Keys == doc.Keys
  {
  }

  /** The pre-pass touches no top-level field outside the five it repairs. */
  lemma PrePassOthersUnchanged(doc: map<string, J>)
    ensures forall k :: k in doc && k !in {"Vulnerability", "DocumentNotes", "DocumentReferences",
                                          "Acknowledgments", "ProductTree"}
                        ==> PrePass(doc)[k] == doc[k]
  {
  }

  /** Inside an object-valued `Vulnerability` the pre-pass adds and removes no key either. */
  lemma PrePassVulnerabilityKeys(doc: map<string, J>)
    requires HasObject(doc, "Vulnerability")
    ensures HasObject(PrePass(doc), "Vulnerability")
    ensures PrePass(doc)["Vulnerability"].fields.Keys == doc["Vulnerability"].fields.Keys
  {
  }

  /** Each coercion fires only when its parent is an object and its key is present, and
      then leaves a list (or `nil`); `CVE` keeps exactly its strings. */
  lemma PrePassCoerces(doc: map<string, J>)
    requires HasObject(doc, "Vulnerability")
    ensures var v := doc["Vulnerability"].fields;
            var w := PrePass(doc)["Vulnerability"].fields;
            ("CVE" in v <==> "CVE" in w) &&
            ("CVE" in v ==> w["CVE"] == StoreStrings(StringSliceOf(v["CVE"]))) &&
            (HasObject(v, "References") ==>
               HasObject(w, "References") &&
               ("Reference" in v["References"].fields ==>
                  w["References"].fields["Reference"] ==
                    StoreList(ToInterfaceSlice(v["References"].fields["Reference"]))))
  {
  }

  /** `ProductStatuses.Status.ProductID`, the field the product lookup reads: when both
      parents are objects it is present after the pre-pass exactly when it was before,
      and then holds the coerced strings. */
  lemma PrePassCoercesProductID(doc: map<string, J>)
    requires HasObject(doc, "Vulnerability")
    requires HasObject(doc["Vulnerability"].fields, "ProductStatuses")
    requires HasObject(doc["Vulnerability"].fields["ProductStatuses"].fields, "Status")
    ensures var st := doc["Vulnerability"].fields["ProductStatuses"].fields["Status"].fields;
            var w := PrePass(doc)["Vulnerability"].fields;
            HasObject(w, "ProductStatuses") && HasObject(w["ProductStatuses"].fields, "Status") &&
            var st2 := w["ProductStatuses"].fields["Status"].fields;
            ("ProductID" in st <==> "ProductID" in st2) &&
            ("ProductID" in st ==> st2["ProductID"] == StoreStrings(StringSliceOf(st["ProductID"])))
  {
    PrePassPointwise(doc);
    var v := doc["Vulnerability"].fields;
    var a := StringsField(v, "CVE");
    assert HasObject(a, "ProductStatuses") && a["ProductStatuses"] == v["ProductStatuses"];
    var b := CoerceStatuses(a);
    ListInKeys(b, "References", "Reference");
  }

  /** The list coercion of `inner` inside the object under `outer`, as seen from the
      document before (`d0`) and after (`d1`): the parent stays an object, the field is
      present exactly when it was, and it then holds the coerced list. */
  predicate ListCoerced(d0: map<string, J>, d1: map<string, J>, outer: string, inner: string)
  {
    HasObject(d0, outer) ==>
      HasObject(d1, outer) &&
      (inner in d0[outer].fields <==> inner in d1[outer].fields) &&
      (inner in d0[outer].fields ==>
         d1[outer].fields[inner] == StoreList(ToInterfaceSlice(d0[outer].fields[inner])))
  }

  /** `DocumentNotes.Note`, `DocumentReferences.Reference` and
      `Acknowledgments.Acknowledgment` are each coerced to a list when their parent is an
      object. */
  lemma PrePassCoercesLists(doc: map<string, J>)
    ensures ListCoerced(doc, PrePass(doc), "DocumentNotes", "Note")
    ensures ListCoerced(doc, PrePass(doc), "DocumentReferences", "Reference")
    ensures ListCoerced(doc, PrePass(doc), "Acknowledgments", "Acknowledgment")
  {
    PrePassPointwise(doc);
  }

  // ----- idempotence -----

  lemma StringsFieldIdempotent(m: map<string, J>, key: string)
    ensures StringsField(StringsField(m, key), key) == StringsField(m, key)
  {
    if key in m {
      StringSliceIdempotent(m[key]);
    }
  }

  lemma ListFieldIdempotent(m: map<string, J>, key: string)
    ensures ListField(ListField(m, key), key) == ListField(m, key)
  {
    if key in m {
      InterfaceSliceIdempotent(m[key]);
    }
  }

  lemma ListInIdempotent(m: map<string, J>, outer: string, inner: string)
    ensures ListIn(ListIn(m, outer, inner), outer, inner) == ListIn(m, outer, inner)
  {
    if HasObject(m, outer) {
      ListFieldIdempotent(m[outer].fields, inner);
    }
  }

  lemma CoerceStatusesIdempotent(v: map<string, J>)
    ensures CoerceStatuses(CoerceStatuses(v)) == CoerceStatuses(v)
  {
    if HasObject(v, "ProductStatuses") && HasObject(v["ProductStatuses"].fields, "Status") {
      var ps := v["ProductStatuses"].fields;
      var st := ps["Status"].fields;
      StringsFieldIdempotent(st, "ProductID");
      var w := CoerceStatuses(v);
      assert w["ProductStatuses"].fields == ps["Status" := JObj(StringsField(st, "ProductID"))];
      var ps2 := w["ProductStatuses"].fields;
      var st2 := ps2["Status"].fields;
      assert st2 == StringsField(st, "ProductID");
      assert StringsField(st2, "ProductID") == st2;
      assert ps2["Status" := JObj(st2)] == ps2;
      assert w["ProductStatuses" := JObj(ps2)] == w;
    }
  }

  /** The repair of one `Vulnerability` value. */
  function RepairVulnerability(j: J): J
  {
    if j.JObj? then JObj(CoerceVulnerability(j.fields)) else j
  }

  /** The repair of one value whose parent object holds a list under `inner`. */
  function RepairListParent(j: J, inner: string): J
  {
    if j.JObj? then JObj(ListField(j.fields, inner)) else j
  }

  /** The repair of the `ProductTree` value. */
  function RepairProductTree(j: J): J
  {
    if j.JObj? then JObj(NormalizeProductTree(j.fields)) else j
  }

  /** What the pre-pass does to the top-level field `k` holding `j`. */
  function RepairField(k: string, j: J): J
  {
    if k == "Vulnerability" then RepairVulnerability(j)
    else if k == "DocumentNotes" then RepairListParent(j, "Note")
    else if k == "DocumentReferences" then RepairListParent(j, "Reference")
    else if k == "Acknowledgments" then RepairListParent(j, "Acknowledgment")
    else if k == "ProductTree" then RepairProductTree(j)
    else j
  }

  /** The pre-pass repairs each top-level field on its own: the sequence of guarded
      in-place updates equals one independent repair per key. */
  lemma PrePassPointwise(doc: map<string, J>)
    ensures PrePass(doc) == map k | k in doc :: RepairField(k, doc[k])
  {
    var p := PrePass(doc);
    var q := map k | k in doc :: RepairField(k, doc[k]);
    PrePassKeys(doc);
    forall k | k in doc
      ensures p[k] == q[k]
    {
    }
  }

  lemma {:induction false} CoerceVulnerabilityIdempotent(v: map<string, J>)
    ensures CoerceVulnerability(CoerceVulnerability(v)) == CoerceVulnerability(v)
  {
    var a := StringsField(v, "CVE");
    var b := CoerceStatuses(a);
    var c := ListIn(b, "References", "Reference");
    // the three steps touch the disjoint keys CVE, ProductStatuses and References
    StringsFieldIdempotent(v, "CVE");
    assert StringsField(c, "CVE") == c;
    CoerceStatusesIdempotent(a);
    assert CoerceStatuses(c) == c;
    ListInIdempotent(b, "References", "Reference");
  }

  lemma RepairFieldIdempotent(k: string, j: J)
    ensures RepairField(k, RepairField(k, j)) == RepairField(k, j)
  {
    if j.JObj? {
      if k == "Vulnerability" {
        CoerceVulnerabilityIdempotent(j.fields);
      } else if k == "DocumentNotes" {
        ListFieldIdempotent(j.fields, "Note");
      } else if k == "DocumentReferences" {
        ListFieldIdempotent(j.fields, "Reference");
      } else if k == "Acknowledgments" {
        ListFieldIdempotent(j.fields, "Acknowledgment");
      } else if k == "ProductTree" {
        NormalizeProductTreeIdempotent(j.fields);
      }
    }
  }

  /** Running the pre-pass on its own output changes nothing: the repaired document is a
      fixed point of the repair. */
  lemma {:induction false} PrePassIdempotent(doc: map<string, J>)
    ensures PrePass(PrePass(doc)) == PrePass(doc)
  {
    var p := PrePass(doc);
    PrePassPointwise(doc);
    PrePassPointwise(p);
    forall k | k in p ensures RepairField(k, p[k]) == p[k] {
      RepairFieldIdempotent(k, doc[k]);
    }
  }
}
