/** Topology definitions as they are written down: with labels and selector kinds, sorted, and as payloads. */
module TopologyCodec {
  import opened Bytes
  import opened Grammar
  import opened Fields
  import opened Codecs
  import opened Topology
  import opened Sorting
  import opened Canonical

  /** A label is a string of bytes. */
  datatype SelectorRecord = SelectorRecord(id: nat, kind: nat, text: seq<nat>)
  datatype LabelledResource = LabelledResource(record: ResourceRecord, text: seq<nat>)

  /** A definition with all that its payload carries. */
  datatype Document = Document(
    generation: nat, selectors: seq<SelectorRecord>, resources: seq<LabelledResource>, edges: seq<ForwardingEdge>)

  function RecordOf(r: LabelledResource): ResourceRecord { r.record }
  function IdOf(s: SelectorRecord): nat { s.id }
  function LabelledKey(r: LabelledResource): Key { ResourceKey(r.record) }
  function SelectorKey(s: SelectorRecord): Key { IdKey(s.id) }

  function DefinitionOf(d: Document): TopologyDefinition {
    TopologyDefinition(d.generation, Mapped(d.resources, RecordOf), d.edges, Mapped(d.selectors, IdOf))
  }

  function SortedDocument(d: Document): Document {
    Document(d.generation, SortBy(d.selectors, SelectorKey), SortBy(d.resources, LabelledKey), SortBy(d.edges, EdgeKey))
  }

  /** A document that went through the canonical path. */
  predicate IsBuiltDocument(d: Document, limits: BuildLimits) {
    SortedDocument(d) == d && WithinLimits(DefinitionOf(d), limits) && IsBuilt(DefinitionOf(d))
  }

  /** Sorting a document sorts the definition in it. */
  lemma SortedDefinition(d: Document)
    ensures DefinitionOf(SortedDocument(d)) == Sorted(DefinitionOf(d))
    ensures SortedDocument(SortedDocument(d)) == SortedDocument(d)
  {
    SortByMapped(d.resources, RecordOf, LabelledKey, ResourceKey);
    SortByMapped(d.selectors, IdOf, SelectorKey, IdKey);
    SortBySorts(d.resources, LabelledKey);
    SortBySorts(d.selectors, SelectorKey);
    SortBySorts(d.edges, EdgeKey);
    SortedStays(SortBy(d.resources, LabelledKey), LabelledKey);
    SortedStays(SortBy(d.selectors, SelectorKey), SelectorKey);
    SortedStays(SortBy(d.edges, EdgeKey), EdgeKey);
  }

  // ----- Formats -----

  const LABEL: Schema := Many(4, LABEL_BYTES, Values([OCTET]))
  const SELECTOR_SHAPES: seq<Shape> := [ID, Code(SELECTOR_KINDS)]
  const RESOURCE_SHAPES: seq<Shape> := [ID, ID, Code(RESOURCE_KINDS), Code(STATES), TRUTH, NUMBER]
  const EDGE_SHAPES: seq<Shape> := [ID, ID, ID, ID, Code(STATES)]
  const SELECTOR: Schema := All([Values(SELECTOR_SHAPES), LABEL])
  const RESOURCE: Schema := All([Values(RESOURCE_SHAPES), LABEL])

  function EdgeSchema(most: nat): Schema {
    All([Values(EDGE_SHAPES), Many(4, most, Values([ID]))])
  }

  function TopologySchema(limits: BuildLimits): Schema {
    All([Values([SCHEMA_SHAPE, ID]), Many(4, limits.maxSelectors, SELECTOR), Many(4, limits.maxResources, RESOURCE),
         Many(4, limits.maxEdges, EdgeSchema(limits.maxSelectors))])
  }

  const ANY_LIMITS: BuildLimits := BuildLimits(ANY, ANY, ANY)

  predicate AreCounts(limits: BuildLimits) {
    limits.maxSelectors <= ANY && limits.maxResources <= ANY && limits.maxEdges <= ANY
  }

  lemma SmallSchemas(most: nat)
    requires most <= ANY
    ensures IsSchema(LABEL) && IsSchema(SELECTOR) && IsSchema(RESOURCE) && IsSchema(EdgeSchema(most))
    ensures IsTight(SELECTOR) && IsTight(RESOURCE) && IsTight(EdgeSchema(most))
    ensures Looser(SELECTOR, SELECTOR) && Looser(RESOURCE, RESOURCE) && Looser(EdgeSchema(most), EdgeSchema(ANY))
  {
  }

  lemma TopologySchemas(limits: BuildLimits)
    requires AreCounts(limits)
    ensures IsSchema(TopologySchema(limits)) && IsTight(TopologySchema(limits))
    ensures Looser(TopologySchema(limits), TopologySchema(ANY_LIMITS))
  {
    SmallSchemas(limits.maxSelectors);
  }

  // ----- Records and trees -----

  function AdminCode(a: AdministrativeState): nat {
    match a
    case Enabled => 0
    case Disabled => 1
    case AdminUnknown => 2
  }

  function AdminOf(code: nat): AdministrativeState {
    if code == 0 then Enabled else if code == 1 then Disabled else AdminUnknown
  }

  function LinkCode(l: LinkState): nat {
    match l
    case Up => 0
    case Down => 1
    case LinkUnknown => 2
  }

  function LinkOf(code: nat): LinkState {
    if code == 0 then Up else if code == 1 then Down else LinkUnknown
  }

  function SelectorTree(s: SelectorRecord): Tree {
    Node([Row([s.id, s.kind]), Numbers(s.text)])
  }

  function ResourceTree(r: LabelledResource): Tree {
    var c := r.record;
    Node([Row([c.id, c.domain, c.kind, AdminCode(c.admin), Bit(c.containable), c.containmentCost]), Numbers(r.text)])
  }

  function EdgeTree(e: ForwardingEdge): Tree {
    Node([Row([e.id, e.from, e.to, e.domain, LinkCode(e.link)]), Numbers(e.admittedSelectors)])
  }

  function DocumentTree(d: Document): Tree {
    Node([Row([SCHEMA, d.generation]), Node(Mapped(d.selectors, SelectorTree)), Node(Mapped(d.resources, ResourceTree)),
          Node(Mapped(d.edges, EdgeTree))])
  }

  /** A row of fields with a list of numbers behind it. */
  predicate IsRecord(t: Tree, width: nat) {
    t.Node? && |t.parts| == 2 && t.parts[0].Row? && |t.parts[0].values| == width && AreNumbers(t.parts[1])
  }

  predicate AreRecords(t: Tree, width: nat) {
    t.Node? && forall k {:trigger t.parts[k]} :: 0 <= k < |t.parts| ==> IsRecord(t.parts[k], width)
  }

  function SelectorIn(t: Tree): SelectorRecord {
    if IsRecord(t, 2) then SelectorRecord(t.parts[0].values[0], t.parts[0].values[1], NumbersIn(t.parts[1]))
    else SelectorRecord(0, 0, [])
  }

  function ResourceIn(t: Tree): LabelledResource {
    if IsRecord(t, 6) then
      var h := t.parts[0].values;
      LabelledResource(ResourceRecord(h[0], h[1], h[2], AdminOf(h[3]), h[4] == 1, h[5]), NumbersIn(t.parts[1]))
    else LabelledResource(ResourceRecord(0, 0, 0, Enabled, false, 0), [])
  }

  function EdgeIn(t: Tree): ForwardingEdge {
    if IsRecord(t, 5) then
      var h := t.parts[0].values;
      ForwardingEdge(h[0], h[1], h[2], h[3], LinkOf(h[4]), NumbersIn(t.parts[1]))
    else ForwardingEdge(0, 0, 0, 0, Up, [])
  }

  predicate IsDocumentTree(t: Tree) {
    && t.Node? && |t.parts| == 4 && t.parts[0].Row? && |t.parts[0].values| == 2
    && t.parts[1].Node? && t.parts[2].Node? && t.parts[3].Node?
  }

  function DocumentIn(t: Tree): Document
    requires IsDocumentTree(t)
  {
    Document(t.parts[0].values[1], Mapped(t.parts[1].parts, SelectorIn), Mapped(t.parts[2].parts, ResourceIn),
             Mapped(t.parts[3].parts, EdgeIn))
  }

  lemma DocumentParts(t: Tree, limits: BuildLimits)
    requires Fits(TopologySchema(limits), t)
    ensures IsDocumentTree(t)
    ensures |t.parts[1].parts| <= limits.maxSelectors && |t.parts[2].parts| <= limits.maxResources
            && |t.parts[3].parts| <= limits.maxEdges
  {
    var parts := TopologySchema(limits).parts;
    assert Fits(parts[0], t.parts[0]) && Fits(parts[1], t.parts[1]) && Fits(parts[2], t.parts[2])
           && Fits(parts[3], t.parts[3]);
  }

  /** A document is what its tree says. */
  lemma DocumentComesBack(d: Document)
    ensures IsDocumentTree(DocumentTree(d)) && DocumentIn(DocumentTree(d)) == d
  {
    var back := DocumentIn(DocumentTree(d));
    forall i | 0 <= i < |d.selectors|
      ensures back.selectors[i] == d.selectors[i]
    {
      NumbersComeBack(d.selectors[i].text);
    }
    forall i | 0 <= i < |d.resources|
      ensures back.resources[i] == d.resources[i]
    {
      NumbersComeBack(d.resources[i].text);
    }
    forall i | 0 <= i < |d.edges|
      ensures back.edges[i] == d.edges[i]
    {
      NumbersComeBack(d.edges[i].admittedSelectors);
    }
    assert back.selectors == d.selectors && back.resources == d.resources && back.edges == d.edges;
  }

  // ----- Payloads -----

  predicate LabelsFit(d: Document) {
    && (forall i {:trigger d.selectors[i]} :: 0 <= i < |d.selectors| ==> |d.selectors[i].text| <= LABEL_BYTES)
    && forall i {:trigger d.resources[i]} :: 0 <= i < |d.resources| ==> |d.resources[i].text| <= LABEL_BYTES
  }

  /** The payload of a document; the writer gives up on a label that is too long. */
  function TopologyBytes(d: Document): seq<byte> {
    if LabelsFit(d) then BytesOf(TopologySchema(ANY_LIMITS), DocumentTree(d)) else []
  }

  predicate TopologyFits(d: Document, limits: BuildLimits) {
    Fits(TopologySchema(limits), DocumentTree(d))
  }

  /** What a reader makes of the bytes of a topology: what they say, taken through the canonical path. */
  function TopologyOf(bytes: seq<byte>, limits: BuildLimits): Option<Document>
    requires AreCounts(limits)
  {
    var t := Whole(TopologySchema(limits), bytes);
    TopologySchemas(limits);
    WholeIsWritten(TopologySchema(limits), bytes);
    if t.None? then None
    else
      DocumentParts(t.value, limits);
      var d := SortedDocument(DocumentIn(t.value));
      if t.value.parts[0].values[0] == SCHEMA && d.generation != 0 && IsBuiltDocument(d, limits) then Some(d) else None
  }

  lemma FittingLabel(s: Schema, t: Tree)
    requires s == SELECTOR || s == RESOURCE
    requires Fits(s, t)
    ensures t.Node? && |t.parts| == 2 && t.parts[1].Node? && |t.parts[1].parts| <= LABEL_BYTES
  {
    assert Fits(s.parts[0], t.parts[0]) && Fits(s.parts[1], t.parts[1]);
  }

  lemma FittingLabels(d: Document, limits: BuildLimits)
    requires TopologyFits(d, limits)
    ensures LabelsFit(d)
  {
    var s, t := TopologySchema(limits), DocumentTree(d);
    assert Fits(s.parts[1], t.parts[1]) && Fits(s.parts[2], t.parts[2]);
    forall i | 0 <= i < |d.selectors|
      ensures |d.selectors[i].text| <= LABEL_BYTES
    {
      assert t.parts[1].parts[i] == SelectorTree(d.selectors[i]);
      FittingLabel(SELECTOR, t.parts[1].parts[i]);
    }
    forall i | 0 <= i < |d.resources|
      ensures |d.resources[i].text| <= LABEL_BYTES
    {
      assert t.parts[2].parts[i] == ResourceTree(d.resources[i]);
      FittingLabel(RESOURCE, t.parts[2].parts[i]);
    }
  }

  /** A built document comes back as itself exactly when it fits the reader's limits; otherwise its bytes are
      refused. */
  lemma TopologyDecides(d: Document, limits: BuildLimits)
    requires AreCounts(limits) && IsBuiltDocument(d, limits) && TopologyFits(d, ANY_LIMITS)
    ensures TopologyOf(TopologyBytes(d), limits) == if TopologyFits(d, limits) then Some(d) else None
  {
    TopologySchemas(limits);
    TopologySchemas(ANY_LIMITS);
    FittingLabels(d, ANY_LIMITS);
    LooserWrites(TopologySchema(limits), TopologySchema(ANY_LIMITS), DocumentTree(d));
    WholeDecides(TopologySchema(limits), TopologySchema(ANY_LIMITS), DocumentTree(d));
    DocumentComesBack(d);
  }

  method EncodeTopology(d: Document) returns (bytes: seq<byte>)
    ensures bytes == TopologyBytes(d)
  {
    if !LabelsFit(d) {
      return [];
    }
    bytes := Encode(TopologySchema(ANY_LIMITS), DocumentTree(d));
  }

  /** Reads a payload and takes what it says through the canonical path. */
  method DecodeTopology(bytes: seq<byte>, limits: BuildLimits) returns (r: Option<Document>)
    requires AreCounts(limits)
    ensures r == TopologyOf(bytes, limits)
    ensures r.Some? ==> IsBuiltDocument(r.value, limits)
  {
    TopologySchemas(limits);
    WholeIsWritten(TopologySchema(limits), bytes);
    var t := Decode(TopologySchema(limits), bytes);
    if t.None? || t.value.parts[0].values[0] != SCHEMA {
      return None;
    }
    DocumentParts(t.value, limits);
    var d := DocumentIn(t.value);
    if d.generation == 0 {
      return None;
    }
    SortedDefinition(d);
    var built := Canonicalize(DefinitionOf(d), limits);
    return if built.Built? then Some(SortedDocument(d)) else None;
  }

  /** A built definition that fits its payload comes back as itself, labels and all. */
  method RecodeTopology(d: Document, limits: BuildLimits) returns (r: Option<Document>)
    requires AreCounts(limits) && IsBuiltDocument(d, limits) && TopologyFits(d, limits)
    ensures r == Some(d)
  {
    TopologySchemas(limits);
    LooserWrites(TopologySchema(limits), TopologySchema(ANY_LIMITS), DocumentTree(d));
    TopologyDecides(d, limits);
    var bytes := EncodeTopology(d);
    r := DecodeTopology(bytes, limits);
  }
}
