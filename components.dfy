/** The choice logic of AssetTrack's UI helpers, over a small abstract
    markup tree: which element, which attributes, which text. The markup
    library itself is not modelled; an element here is only its tag, its
    attributes in order and its children. */
module Components {
  import opened Text
  import opened Models

  datatype Attr =
    | Class(classes: string)
    | Id(id: string)
    | Name(name: string)
    | Type(kind: string)
    | Placeholder(hint: string)
    | Value(value: string)
    | For(target: string)
    | Required
    | Selected

  datatype Node =
    | Element(tag: string, attrs: seq<Attr>, children: seq<Node>)
    | TextNode(text: string)
    | Raw(html: string)

  /** The glyph for each icon name. */
  const Icons: map<string, string> := map[
    "dashboard" := "\U{1F4CA}", "assets" := "\U{1F4BB}", "maintenance" := "\U{1F527}",
    "reports" := "\U{1F4C8}", "settings" := "\U{2699}\U{FE0F}", "users" := "\U{1F465}",
    "search" := "\U{1F50D}", "filter" := "\U{23F3}",
    "edit" := "\U{270F}\U{FE0F}", "delete" := "\U{1F5D1}\U{FE0F}", "view" := "\U{1F441}\U{FE0F}",
    "export" := "\U{1F4E4}", "import" := "\U{1F4E5}", "refresh" := "\U{1F504}",
    "notification" := "\U{1F514}", "check" := "\U{2713}", "warning" := "\U{26A0}\U{FE0F}"
  ]

  /** The bullet shown for a name the table does not know. */
  const DefaultGlyph := "\U{2022}"

  const AddIconSvg := "<svg class=\"w-4 h-4\" fill=\"none\" stroke=\"currentColor\" stroke-width=\"2\" viewBox=\"0 0 24 24\"><path d=\"M12 5v14M5 12h14\"/></svg>"

  /** The glyph an icon name maps to: its table entry, or the bullet when the
      lookup gives the empty string. */
  function IconGlyph(name: string): string {
    var ic := if name in Icons then Icons[name] else "";
    if ic == "" then DefaultGlyph else ic
  }

  /** "add" is the fixed SVG; every other name is a span holding its glyph. */
  function Icon(name: string): (n: Node)
    ensures name == "add" <==> n.Raw?
    ensures name == "add" ==> n == Raw(AddIconSvg)
    ensures name != "add" ==> n == Element("span", [Class("icon")], [TextNode(IconGlyph(name))])
  {
    if name == "add" then Raw(AddIconSvg)
    else Element("span", [Class("icon")], [TextNode(IconGlyph(name))])
  }

  /** A known name shows its table entry and an unknown one the bullet; the
      bullet is no table entry, so it appears exactly for unknown names. */
  lemma IconGlyphLookup(name: string)
    ensures name in Icons ==> IconGlyph(name) == Icons[name]
    ensures name !in Icons ==> IconGlyph(name) == DefaultGlyph
    ensures IconGlyph(name) == DefaultGlyph <==> name !in Icons
  {
    if name in Icons {
      assert Icons[name] != "" && Icons[name] != DefaultGlyph;
    }
  }

  const BadgeBase := "px-2 py-1 text-xs font-medium rounded-full "
  const GreyBadge := "bg-gray-100 text-gray-600 dark:bg-gray-700 dark:text-gray-400"
  const GreenBadge := "bg-green-100 text-green-800 dark:bg-green-900/50 dark:text-green-300"

  /** The colour classes of each known status. */
  const BadgeColors: map<string, string> := map[
    "active" := GreenBadge,
    "maintenance" := "bg-yellow-100 text-yellow-800 dark:bg-yellow-900/50 dark:text-yellow-300",
    "retired" := GreyBadge,
    "pending" := "bg-blue-100 text-blue-800 dark:bg-blue-900/50 dark:text-blue-300",
    "completed" := GreenBadge
  ]

  function BadgeColor(status: string): string {
    var c := if status in BadgeColors then BadgeColors[status] else "";
    if c == "" then GreyBadge else c
  }

  /** A pill whose text is the status itself, coloured by the status. */
  function StatusBadge(status: string): (n: Node)
    ensures n.Element? && n.tag == "span" && n.children == [TextNode(status)]
    ensures n.attrs == [Class(BadgeBase + BadgeColor(status))]
  {
    Element("span", [Class(BadgeBase + BadgeColor(status))], [TextNode(status)])
  }

  /** The five known statuses get their own colour; any other status gets
      grey, the colour "retired" also uses. */
  lemma BadgeColorLookup(status: string)
    ensures status in BadgeColors ==> BadgeColor(status) == BadgeColors[status]
    ensures status !in BadgeColors ==> BadgeColor(status) == GreyBadge
    ensures BadgeColor(status) == GreyBadge <==> status == "retired" || status !in BadgeColors
  {
    if status in BadgeColors {
      assert BadgeColors[status] != "";
    }
  }

  const InputClass := "w-full px-3 py-2 text-sm border border-gray-300 dark:border-gray-600 bg-white dark:bg-gray-700 text-gray-900 dark:text-gray-100 rounded-md focus:outline-none focus:ring-2 focus:ring-blue-500"
  const LabelBase := "block text-sm font-medium text-gray-700 dark:text-gray-300 mb-1"
  /** The classes that draw a red asterisk after a required field's label. */
  const RequiredMark := " after:content-['*'] after:ml-0.5 after:text-red-500"

  /** The element ID a field's label points at. */
  function FieldId(name: string): string {
    "field-" + name
  }

  function LabelClass(required: bool): string {
    if required then LabelBase + RequiredMark else LabelBase
  }

  /** A labelled input. The input's ID is derived from its name and the
      label points at it; a required field has the Required attribute and
      the asterisk classes, an optional one neither. */
  function FormField(labelText: string, name: string, fieldType: string, placeholder: string, value: string,
                     required: bool): (n: Node)
    ensures n.Element? && n.tag == "div" && |n.children| == 2
    ensures n.children[0].Element? && n.children[0].tag == "label" && n.children[0].children == [TextNode(labelText)]
    ensures n.children[1].Element? && n.children[1].tag == "input" && n.children[1].children == []
    ensures For(FieldId(name)) in n.children[0].attrs && Id(FieldId(name)) in n.children[1].attrs
    ensures Required in n.children[1].attrs <==> required
    ensures Class(LabelBase + RequiredMark) in n.children[0].attrs <==> required
    ensures Class(LabelBase) in n.children[0].attrs <==> !required
  {
    var id := FieldId(name);
    var attrs := [Class(InputClass), Id(id), Name(name), Type(fieldType), Placeholder(placeholder), Value(value)];
    var attrs := if required then attrs + [Required] else attrs;
    Element("div", [Class("mb-4")], [
      Element("label", [Class(LabelClass(required)), For(id)], [TextNode(labelText)]),
      Element("input", attrs, [])
    ])
  }

  /** One choice of a select field. */
  datatype SelectOption = SelectOption(Value: string, Text: string)

  /** The placeholder choice every select field starts with. */
  const PromptOption := Element("option", [Value("")], [TextNode("Select...")])

  /** The option element for one choice, marked selected when its value is
      `selected`. */
  function OptionNode(opt: SelectOption, selected: string): Node {
    Element("option", if opt.Value == selected then [Value(opt.Value), Selected] else [Value(opt.Value)],
            [TextNode(opt.Text)])
  }

  /** The options of a select field: the prompt, then one per choice. */
  function OptionNodes(options: seq<SelectOption>, selected: string): seq<Node> {
    [PromptOption] + seq(|options|, i requires 0 <= i < |options| => OptionNode(options[i], selected))
  }

  /** The select element's attributes. */
  function SelectAttrs(name: string, required: bool): seq<Attr> {
    var attrs := [Class(InputClass), Id(FieldId(name)), Name(name)];
    if required then attrs + [Required] else attrs
  }

  /** A select field offers one more option than it has choices: first the
      unmarked prompt with the empty value, then each choice in order with
      its value and text, marked selected exactly when its value is
      `selected`. */
  lemma OptionMarking(options: seq<SelectOption>, selected: string)
    ensures var opts := OptionNodes(options, selected);
      && |opts| == |options| + 1
      && opts[0] == Element("option", [Value("")], [TextNode("Select...")])
      && Selected !in opts[0].attrs
      && forall i :: 0 <= i < |options| ==>
           && opts[i + 1].Element? && opts[i + 1].tag == "option" && |opts[i + 1].attrs| >= 1
           && opts[i + 1].attrs[0] == Value(options[i].Value)
           && opts[i + 1].children == [TextNode(options[i].Text)]
           && (Selected in opts[i + 1].attrs <==> options[i].Value == selected)
  {
    var opts := OptionNodes(options, selected);
    forall i | 0 <= i < |options|
      ensures opts[i + 1] == OptionNode(options[i], selected)
    {
    }
  }

  /** The select points back at its label's ID and is required exactly when
      the field is. */
  lemma SelectAttrsLinks(name: string, required: bool)
    ensures Id(FieldId(name)) in SelectAttrs(name, required)
    ensures Required in SelectAttrs(name, required) <==> required
  {
  }

  /** A labelled select holding the prompt and one option per choice, built
      by filling a pre-sized array as the source does. */
  method SelectField(labelText: string, name: string, options: seq<SelectOption>, selected: string, required: bool)
    returns (field: Node)
    ensures field == Element("div", [Class("mb-4")], [
      Element("label", [Class(LabelClass(required)), For(FieldId(name))], [TextNode(labelText)]),
      Element("select", SelectAttrs(name, required), OptionNodes(options, selected))
    ])
  {
    var id := FieldId(name);
    var optionNodes := new Node[|options| + 1](_ => TextNode(""));
    optionNodes[0] := PromptOption;
    var i := 0;
    while i < |options|
      invariant 0 <= i <= |options|
      invariant optionNodes[0] == PromptOption
      invariant forall j :: 0 <= j < i ==> optionNodes[j + 1] == OptionNode(options[j], selected)
    {
      var opt := options[i];
      var attrs := [Value(opt.Value)];
      if opt.Value == selected {
        attrs := attrs + [Selected];
      }
      optionNodes[i + 1] := Element("option", attrs, [TextNode(opt.Text)]);
      i := i + 1;
    }
    assert optionNodes[..] == OptionNodes(options, selected);
    var selectAttrs := [Class(InputClass), Id(id), Name(name)];
    if required {
      selectAttrs := selectAttrs + [Required];
    }
    field := Element("div", [Class("mb-4")], [
      Element("label", [Class(LabelClass(required)), For(id)], [TextNode(labelText)]),
      Element("select", selectAttrs, optionNodes[..])
    ]);
  }

  const EmptyTableClass := "text-center py-8 text-gray-500 dark:text-gray-400"
  const RowClass := "hover:bg-gray-50 dark:hover:bg-gray-700"
  const CellClass := "px-4 py-3 text-sm text-gray-900 dark:text-gray-100"
  const MutedCellClass := "px-4 py-3 text-sm text-gray-600 dark:text-gray-400"
  const PlainCellClass := "px-4 py-3"
  const HeaderCellClass := "px-4 py-2 text-left text-xs font-medium text-gray-500 dark:text-gray-400"
  const TableClass := "w-full text-sm"
  const TheadClass := "bg-gray-50 dark:bg-gray-900/50"
  const TbodyClass := "divide-y divide-gray-200 dark:divide-gray-700"
  const TypeTagClass := "px-2 py-0.5 text-xs rounded border bg-blue-50 dark:bg-blue-900/30 text-blue-700 dark:text-blue-300 border-blue-200 dark:border-blue-800"

  /** The table row of one maintenance record: date, type tag, description
      and status badge. */
  function RecordRow(r: MaintenanceRecord): (row: Node)
    ensures row.Element? && row.tag == "tr" && |row.children| == 4
    ensures row.children[0] == Element("td", [Class(CellClass)], [TextNode(r.Date)])
    ensures row.children[3] == Element("td", [Class(PlainCellClass)], [StatusBadge(r.Status)])
  {
    Element("tr", [Class(RowClass)], [
      Element("td", [Class(CellClass)], [TextNode(r.Date)]),
      Element("td", [Class(PlainCellClass)], [Element("span", [Class(TypeTagClass)], [TextNode(r.Type)])]),
      Element("td", [Class(MutedCellClass)], [TextNode(r.Description)]),
      Element("td", [Class(PlainCellClass)], [StatusBadge(r.Status)])
    ])
  }

  /** The message shown in place of an empty table. */
  const NoRecordsMessage := Element("div", [Class(EmptyTableClass)], [Element("p", [], [TextNode("No maintenance records")])])

  function HeaderCell(title: string): Node {
    Element("th", [Class(HeaderCellClass)], [TextNode(title)])
  }

  /** No records give only the message; otherwise a table with one row per
      record, in order, under a header. */
  method MaintenanceTable(records: seq<MaintenanceRecord>) returns (n: Node)
    ensures |records| == 0 <==> n == NoRecordsMessage
    ensures |records| > 0 ==>
      && n.Element? && n.tag == "table" && |n.children| == 2
      && n.children[1].Element? && n.children[1].tag == "tbody"
      && |n.children[1].children| == |records|
      && forall i :: 0 <= i < |records| ==> n.children[1].children[i] == RecordRow(records[i])
  {
    if |records| == 0 {
      return NoRecordsMessage;
    }
    var rows := new Node[|records|](_ => TextNode(""));
    var i := 0;
    while i < |records|
      invariant 0 <= i <= |records|
      invariant forall j :: 0 <= j < i ==> rows[j] == RecordRow(records[j])
    {
      rows[i] := RecordRow(records[i]);
      i := i + 1;
    }
    n := Element("table", [Class(TableClass)], [
      Element("thead", [Class(TheadClass)], [
        Element("tr", [], [HeaderCell("Date"), HeaderCell("Type"), HeaderCell("Description"),
                           HeaderCell("Cost"), HeaderCell("Status")])
      ]),
      Element("tbody", [Class(TbodyClass)], rows[..])
    ]);
  }

  /** "Last service": the year and month at the head of the first record's
      date, or "N/A" when there is no record or its date is too short. */
  function LastService(records: seq<MaintenanceRecord>): (s: string)
    ensures |records| > 0 && |records[0].Date| >= 7 ==> |s| == 7 && s <= records[0].Date
    ensures !(|records| > 0 && |records[0].Date| >= 7) ==> s == "N/A"
  {
    if |records| > 0 && |records[0].Date| >= 7 then records[0].Date[..7] else "N/A"
  }

  const SummaryClass := "mt-6 pt-6 border-t border-gray-200 dark:border-gray-700 grid grid-cols-3 gap-4"
  const TileClass := "text-center p-4 bg-gray-50 dark:bg-gray-900/50 rounded-lg"
  const TileValueClass := "text-2xl font-semibold text-gray-900 dark:text-white"
  const TileCaptionClass := "text-sm text-gray-500 dark:text-gray-400"

  function SummaryTile(value: string, caption: string): Node {
    Element("div", [Class(TileClass)], [
      Element("p", [Class(TileValueClass)], [TextNode(value)]),
      Element("p", [Class(TileCaptionClass)], [TextNode(caption)])
    ])
  }

  /** Three tiles: the number of records, the total cost (printed by the
      caller), and the last service month. */
  function MaintenanceSummary(records: seq<MaintenanceRecord>, totalText: string): (n: Node)
    ensures n.Element? && |n.children| == 3
    ensures n.children[0] == SummaryTile(FormatInt(|records|), "Records")
    ensures n.children[1] == SummaryTile(totalText, "Total Cost")
    ensures n.children[2] == SummaryTile(LastService(records), "Last Service")
  {
    Element("div", [Class(SummaryClass)], [
      SummaryTile(FormatInt(|records|), "Records"),
      SummaryTile(totalText, "Total Cost"),
      SummaryTile(LastService(records), "Last Service")
    ])
  }

  /** The displayed count reads back as the number of records. */
  lemma SummaryCount(records: seq<MaintenanceRecord>, totalText: string)
    ensures var t := MaintenanceSummary(records, totalText).children[0].children[0].children[0].text;
      AllDigits(t) && ParseDecimal(t) == |records|
  {
    ParseDecimalDigits(|records|);
  }
}
