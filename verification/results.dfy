/** The extraction result as the results view receives it, and what the view
    derives from it: the field cards of the active tab and the banner listing
    fields the service could not extract. */
module Results {
  import opened Optional
  import opened JsStrings
  import opened Values
  import opened Schema

  /** One section of the result: field key to raw value. A key mapped to
      `Absent` is present with a `null` value. */
  type Section = map<string, RawValue>

  /** The result object. Each of the five properties the front end reads is
      `None` when it is missing or `null`, since every reader treats the two
      alike. `otherKeys` counts the remaining own keys: the properties the
      view never reads, and each of the five that is present with a `null`
      value (`Object.keys` counts a key whatever its value). */
  datatype ExtractionResult = ExtractionResult(
    filename: Option<string>,
    page1: Option<Section>,
    partVIII: Option<Section>,
    partIX: Option<Section>,
    errors: Option<seq<string>>,
    otherKeys: nat)

  /** `Object.keys(result).length`: the five read properties that hold a
      value, plus `otherKeys`, which includes those present with `null`. */
  function KeyCount(r: ExtractionResult): nat {
    (if r.filename.Some? then 1 else 0)
    + (if r.page1.Some? then 1 else 0)
    + (if r.partVIII.Some? then 1 else 0)
    + (if r.partIX.Some? then 1 else 0)
    + (if r.errors.Some? then 1 else 0)
    + r.otherKeys
  }

  /** `data?.[key]`: a missing section or a missing key reads as `Absent`. */
  function Lookup(data: Option<Section>, key: string): RawValue {
    match data
    case None => Absent
    case Some(m) => if key in m then m[key] else Absent
  }

  // ---------------------------------------------------------------------------
  // Tabs
  // ---------------------------------------------------------------------------

  const Page1Tab: string := "page1"
  const PartVIIITab: string := "part_viii"
  const PartIXTab: string := "part_ix"

  /** What `getFieldsForTab` returns: the tab's field list and its section. */
  datatype TabView = TabView(fields: seq<Field>, data: Option<Section>)

  /** `getFieldsForTab`: each of the three tab ids selects its own list and
      section; any other id selects no fields and an empty section. */
  function FieldsForTab(r: ExtractionResult, tab: string): (v: TabView)
    ensures v.fields == Page1Fields && v.data == r.page1 <==> tab == Page1Tab
    ensures v.fields == PartVIIIFields && v.data == r.partVIII <==> tab == PartVIIITab
    ensures v.fields == PartIXFields && v.data == r.partIX <==> tab == PartIXTab
    ensures |v.fields| == 0 <==> tab !in {Page1Tab, PartVIIITab, PartIXTab}
    ensures |v.fields| == 0 ==> v.data == Some(map[])
  {
    SchemaSizes();
    if tab == Page1Tab then TabView(Page1Fields, r.page1)
    else if tab == PartVIIITab then TabView(PartVIIIFields, r.partVIII)
    else if tab == PartIXTab then TabView(PartIXFields, r.partIX)
    else TabView([], Some(map[]))
  }

  /** One rendered field card: React key, label and displayed value. */
  datatype FieldCard = FieldCard(key: string, caption: string, value: string)

  /** The card for field `f` when its section is `data`. */
  function Card(f: Field, data: Option<Section>): FieldCard {
    FieldCard(f.key, f.caption, DisplayValue(Lookup(data, f.key)))
  }

  /** The cards of a field list, in list order. */
  function Cards(fields: seq<Field>, data: Option<Section>): seq<FieldCard> {
    seq(|fields|, i requires 0 <= i < |fields| => Card(fields[i], data))
  }

  /** The cards the fields grid shows for a tab. Each tab id shows its own
      section's fields in schema order, with values cleaned for display; an
      unknown id shows nothing. */
  function RenderTab(r: ExtractionResult, tab: string): (cards: seq<FieldCard>)
    ensures tab == Page1Tab ==> cards == Cards(Page1Fields, r.page1)
    ensures tab == PartVIIITab ==> cards == Cards(PartVIIIFields, r.partVIII)
    ensures tab == PartIXTab ==> cards == Cards(PartIXFields, r.partIX)
    ensures tab !in {Page1Tab, PartVIIITab, PartIXTab} ==> cards == []
  {
    var view := FieldsForTab(r, tab);
    Cards(view.fields, view.data)
  }

  /** The section a tab id reads, if it is one of the three. */
  function TabSection(r: ExtractionResult, tab: string): Option<Section> {
    FieldsForTab(r, tab).data
  }

  /** A tab whose section is missing from the result renders every field as
      `"0"`, never as an error. */
  lemma MissingSectionRendersZeros(r: ExtractionResult, tab: string)
    requires tab in {Page1Tab, PartVIIITab, PartIXTab}
    requires TabSection(r, tab).None?
    ensures |RenderTab(r, tab)| > 0
    ensures forall i :: 0 <= i < |RenderTab(r, tab)| ==> RenderTab(r, tab)[i].value == "0"
  {
    SchemaSizes();
  }

  /** A card shows exactly the display form of the raw value stored under its
      key in the tab's own section. */
  lemma CardShowsOwnSection(r: ExtractionResult, tab: string, i: nat)
    requires tab in {Page1Tab, PartVIIITab, PartIXTab}
    requires i < |RenderTab(r, tab)|
    ensures var c := RenderTab(r, tab)[i];
            TabSection(r, tab).Some? && c.key in TabSection(r, tab).value ==>
              c.value == DisplayValue(TabSection(r, tab).value[c.key])
  {
  }

  // ---------------------------------------------------------------------------
  // The results view's own state
  // ---------------------------------------------------------------------------

  /** The results view: the result it was given and its active tab. */
  datatype ResultsView = ResultsView(results: ExtractionResult, activeTab: string)

  /** The view as first mounted: the page-1 tab is active. */
  function Mount(r: ExtractionResult): (v: ResultsView)
    ensures v.results == r
    ensures Render(v) == Cards(Page1Fields, r.page1)
  {
    ResultsView(r, Page1Tab)
  }

  /** What the view shows. */
  function Render(v: ResultsView): seq<FieldCard> {
    RenderTab(v.results, v.activeTab)
  }

  /** Clicking a tab button: only the active tab changes, never the result. */
  function SelectTab(v: ResultsView, tab: string): (v': ResultsView)
    ensures v'.results == v.results
    ensures Render(v') == RenderTab(v.results, tab)
  {
    v.(activeTab := tab)
  }

  /** Going to another tab and coming back reproduces the same cards. */
  lemma SwitchingBackReproducesCards(v: ResultsView, other: string)
    ensures Render(SelectTab(SelectTab(v, other), v.activeTab)) == Render(v)
  {
  }

  // ---------------------------------------------------------------------------
  // Errors banner
  // ---------------------------------------------------------------------------

  const ErrorsBannerPrefix: string := "Some fields could not be extracted: "

  /** The warning above the tabs: shown only when the result lists at least
      one field error, listing them all separated by `", "`. */
  function ErrorsBanner(r: ExtractionResult): (b: Option<string>)
    ensures b.Some? <==> r.errors.Some? && |r.errors.value| > 0
  {
    match r.errors
    case Some(errs) =>
      if |errs| > 0 then Some(ErrorsBannerPrefix + Join(errs, ", ")) else None
    case None => None
  }

  /** Every listed error appears verbatim in the banner, after the fixed
      prefix. */
  lemma BannerListsEveryError(r: ExtractionResult, i: nat)
    requires r.errors.Some? && i < |r.errors.value|
    ensures ErrorsBanner(r).Some?
    ensures var b := ErrorsBanner(r).value;
            var k := |ErrorsBannerPrefix| + JoinOffset(r.errors.value, ", ", i);
            b[..|ErrorsBannerPrefix|] == ErrorsBannerPrefix &&
            k + |r.errors.value[i]| <= |b| && b[k..k + |r.errors.value[i]|] == r.errors.value[i]
  {
    var errs := r.errors.value;
    var j := Join(errs, ", ");
    var k' := JoinOffset(errs, ", ", i);
    var b := ErrorsBannerPrefix + j;
    assert b[|ErrorsBannerPrefix|..] == j;
    assert b[|ErrorsBannerPrefix| + k'..|ErrorsBannerPrefix| + k' + |errs[i]|] == j[k'..k' + |errs[i]|];
  }
}
