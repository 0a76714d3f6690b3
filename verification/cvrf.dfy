/** The typed advisory record of pkg/fortinet/types.go (`CVRF`), which the generic decoder
    fills from the repaired document, and the `ReferenceList` type whose `UnmarshalJSON`
    accepts either one reference object or an array of them. */
module Cvrf {
  import opened Wrappers
  import opened Json

  // The Go field `Type` is called `kind` here (`type` is a Dafny keyword).

  datatype Publisher = Publisher(kind: string, contactDetails: string)
  datatype Identification = Identification(id: string)
  datatype Revision = Revision(number: string, date: string, description: string)
  datatype RevisionHistory = RevisionHistory(revision: Revision)
  datatype Tracking = Tracking(
    identification: Identification,
    status: string,
    version: string,
    revisionHistory: RevisionHistory,
    initialReleaseDate: string,
    currentReleaseDate: string)

  datatype Note = Note(text: string, title: string, kind: string, ordinal: string)
  datatype DocumentNotes = DocumentNotes(note: seq<Note>)

  datatype Reference = Reference(url: string, description: string)
  datatype DocumentReferences = DocumentReferences(reference: seq<Reference>)

  datatype Acknowledgment = Acknowledgment(description: string)
  datatype Acknowledgments = Acknowledgments(acknowledgment: seq<Acknowledgment>)

  datatype References = References(kind: string, reference: seq<Reference>)
  datatype Status = Status(kind: string, productID: seq<string>)
  datatype ProductStatuses = ProductStatuses(status: Status)
  datatype ScoreSetV3 = ScoreSetV3(baseScoreV3: string, vectorV3: string)
  datatype CVSSScoreSets = CVSSScoreSets(scoreSetV3: ScoreSetV3)
  datatype Vulnerability = Vulnerability(
    ordinal: string,
    title: string,
    references: References,
    cve: seq<string>,
    productStatuses: ProductStatuses,
    cvssScoreSets: CVSSScoreSets)

  /** The product tree is three typed levels deep: vendor, product type, product version. */
  datatype FullProductName = FullProductName(text: string, productID: string)
  datatype VersionBranch = VersionBranch(name: string, kind: string, fullProductName: FullProductName)
  datatype ProductBranch = ProductBranch(name: string, kind: string, branch: seq<VersionBranch>)
  datatype VendorBranch = VendorBranch(name: string, kind: string, branch: seq<ProductBranch>)
  datatype ProductTree = ProductTree(branch: VendorBranch)

  datatype CVRF = CVRF(
    documentTitle: string,
    documentType: string,
    documentPublisher: Publisher,
    documentTracking: Tracking,
    documentNotes: DocumentNotes,
    documentReferences: DocumentReferences,
    acknowledgments: Acknowledgments,
    vulnerability: Vulnerability,
    productTree: ProductTree)

  // ----- encoding/json decoding of one reference -----

  /** The JSON value stored for a struct field: under its tag name, or else under the
      spelling the CVRF feed uses. */
  function FieldValue(m: map<string, J>, tag: string, feedName: string): Option<J>
  {
    if tag in m then Some(m[tag]) else if feedName in m then Some(m[feedName]) else None
  }

  /** A string field: absent or `null` leaves Go's zero value `""`; a non-string is a type error. */
  function StringField(m: map<string, J>, tag: string, feedName: string): Result<string>
  {
    match FieldValue(m, tag, feedName)
    case None => Ok("")
    case Some(JNull) => Ok("")
    case Some(JStr(s)) => Ok(s)
    case Some(_) => Err("json: cannot unmarshal into Go struct field of type string")
  }

  /** `json.Unmarshal` into a `reference`: an object fills `URL` and `Description`
      (unknown keys are ignored), `null` leaves the zero value, anything else is an error. */
  function DecodeReference(j: J): Result<Reference>
  {
    match j
    case JNull => Ok(Reference("", ""))
    case JObj(m) =>
      var url := StringField(m, "url", "URL");
      var description := StringField(m, "description", "Description");
      if url.Ok? && description.Ok? then Ok(Reference(url.value, description.value))
      else Err("json: cannot unmarshal into Go struct field of type string")
    case _ => Err("json: cannot unmarshal into Go value of type fortinet.reference")
  }

  /** The elements of a JSON array decoded one by one; one failure fails the whole array. */
  function DecodeElements(xs: seq<J>): (r: Result<seq<Reference>>)
    ensures r.Ok? <==> forall i :: 0 <= i < |xs| ==> DecodeReference(xs[i]).Ok?
    ensures r.Ok? ==>
      (|r.value| == |xs| && forall i :: 0 <= i < |xs| ==> DecodeReference(xs[i]) == Ok(r.value[i]))
  {
    if xs == [] then Ok([])
    else
      var head := DecodeReference(xs[0]);
      var tail := DecodeElements(xs[1..]);
      if head.Ok? && tail.Ok? then
        assert forall i :: 1 <= i < |xs| ==> xs[i] == xs[1..][i - 1];
        Ok([head.value] + tail.value)
      else
        assert head.Err? ==> !DecodeReference(xs[0]).Ok?;
        assert tail.Err? ==> exists i :: 0 <= i < |xs[1..]| && !DecodeReference(xs[1..][i]).Ok?;
        Err(if head.Err? then head.error else tail.error)
  }

  /** `json.Unmarshal` into `[]reference`: `null` gives the nil (empty) slice, an array is
      decoded element-wise, anything else is an error. */
  function DecodeArray(j: J): Result<seq<Reference>>
  {
    match j
    case JNull => Ok([])
    case JArr(xs) => DecodeElements(xs)
    case _ => Err("json: cannot unmarshal into Go value of type []fortinet.reference")
  }

  /** What a `Reference` field holds after decoding `j`, case by case: `null` is the empty
      list, an array its references in order, a single object a one-element list; any
      other JSON value is an error. */
  function ReferenceListOf(j: J): Result<seq<Reference>>
  {
    match j
    case JNull => Ok([])
    case JArr(xs) => DecodeElements(xs)
    case JObj(_) =>
      var r := DecodeReference(j);
      if r.Ok? then Ok([r.value]) else Err(r.error)
    case _ => Err("json: cannot unmarshal into Go value of type fortinet.reference")
  }

  /** pkg/fortinet/types.go `ReferenceList`: a list of references that decodes from
      either a single JSON object or an array of objects. */
  class ReferenceList {
    var refs: seq<Reference>

    constructor ()
      ensures refs == []
    {
      refs := [];
    }

    /** The array form is tried first, then the single-object form; on failure the
        receiver is left as it was. */
    method UnmarshalJSON(data: J) returns (err: Option<string>)
      modifies this
      ensures err.None? <==> ReferenceListOf(data).Ok?
      ensures err.None? ==> refs == ReferenceListOf(data).value
      ensures err.Some? ==> refs == old(refs)
    {
      var arr := DecodeArray(data);
      if arr.Ok? {
        refs := arr.value;
        return None;
      }
      var single := DecodeReference(data);
      if single.Err? {
        return Some(single.error);
      }
      refs := [single.value];
      return None;
    }
  }

  // ----- what the coercion promises -----

  /** A single object decodes exactly as a one-element array holding it: cardinality one
      is indistinguishable from a list of one. */
  lemma SingleObjectAsSingleton(m: map<string, J>)
    ensures ReferenceListOf(JObj(m)) == ReferenceListOf(JArr([JObj(m)]))
  {
    assert [JObj(m)][1..] == [];
    assert DecodeElements([JObj(m)][1..]) == Ok([]);
    var r := DecodeReference(JObj(m));
    if r.Ok? {
      assert [r.value] + [] == [r.value];
    }
  }

  /** An array of reference objects decodes to the same references in the same order and
      is never wrapped as a singleton; `null` decodes to the empty list. */
  lemma ArrayKeepsOrder(xs: seq<J>)
    requires forall i :: 0 <= i < |xs| ==> DecodeReference(xs[i]).Ok?
    ensures ReferenceListOf(JArr(xs)).Ok?
    ensures |ReferenceListOf(JArr(xs)).value| == |xs|
    ensures forall i :: 0 <= i < |xs| ==> ReferenceListOf(JArr(xs)).value[i] == DecodeReference(xs[i]).value
    ensures ReferenceListOf(JNull) == Ok([])
  {
  }

  /** Strings, numbers and booleans are rejected. */
  lemma ScalarsRejected(j: J)
    requires j.JStr? || j.JNum? || j.JBool?
    ensures ReferenceListOf(j).Err?
  {
  }

  // ----- encoding/json encoding, the inverse direction -----

  /** `json.Marshal` of one reference: tags `url` and `description`, both `omitempty`. */
  function EncodeReference(r: Reference): J
  {
    JObj((if r.url != "" then map["url" := JStr(r.url)] else map[])
       + (if r.description != "" then map["description" := JStr(r.description)] else map[]))
  }

  /** `json.Marshal` of a reference list: an array of encoded references. */
  function EncodeReferences(refs: seq<Reference>): (j: J)
    ensures j.JArr? && |j.elems| == |refs|
    ensures forall i :: 0 <= i < |refs| ==> j.elems[i] == EncodeReference(refs[i])
  {
    JArr(seq(|refs|, i requires 0 <= i < |refs| => EncodeReference(refs[i])))
  }

  lemma DecodeEncodeReference(r: Reference)
    ensures DecodeReference(EncodeReference(r)) == Ok(r)
  {
  }

  /** Decoding what encoding produced gives back the same references. */
  lemma RoundTrip(refs: seq<Reference>)
    ensures ReferenceListOf(EncodeReferences(refs)) == Ok(refs)
  {
    var j := EncodeReferences(refs);
    forall i | 0 <= i < |refs| ensures DecodeReference(j.elems[i]) == Ok(refs[i]) {
      DecodeEncodeReference(refs[i]);
    }
    var d := ReferenceListOf(j);
    assert d.Ok?;
    assert |d.value| == |refs|;
    assert forall i :: 0 <= i < |refs| ==> d.value[i] == refs[i];
    assert d.value == refs;
  }
}
