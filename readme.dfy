/**
 * The README the scaffolder writes, as the syntax tree the integration tests
 * parse it into (an mdast-like tree: headings, paragraphs, text, html
 * comments, link and image references, and reference definitions).
 *
 * The README scaffolder itself is not part of this model; `Render` is the
 * document shape its tests require: the title, the description, three badge
 * zones delimited by html comments, the Table of Contents, Usage and
 * Contributing sections, and the reference definitions at the end.
 *
 * The `ref` of a reference or definition node is what mdast calls its `label`.
 */
module Readme {
  import opened Wrappers
  import opened Entries
  import opened Project

  datatype Node =
    | Heading(depth: nat, children: seq<Node>)
    | Paragraph(children: seq<Node>)
    | Text(value: string)
    | Html(value: string)
    | LinkReference(ref: string, children: seq<Node>)
    | ImageReference(ref: string, alt: string)
    | Definition(ref: string, url: string)

  /** The name of a badge group, as the badge groups object spells its key. */
  function GroupKey(g: GroupName): string {
    match g
    case Status => "status"
    case Consumer => "consumer"
    case Contribution => "contribution"
  }

  /** The name of the zone that holds a group's badges. */
  function ZoneName(g: GroupName): string {
    GroupKey(g) + "-badges"
  }

  function StartMarker(zone: string): string {
    "<!--" + zone + " start -->"
  }

  function EndMarker(zone: string): string {
    "<!--" + zone + " end -->"
  }

  /** The reference label of the link around the badge stored under `key`. */
  function LinkLabel(key: string): string {
    key + "-link"
  }

  /** The reference label of the image of the badge stored under `key`. */
  function ImageLabel(key: string): string {
    key + "-badge"
  }

  /** JavaScript truthiness of an optional string: present and non-empty. */
  predicate Truthy(s: Option<string>) {
    s.Some? && s.value != ""
  }

  /** A badge is rendered as a link when its `link` is truthy. */
  predicate Linked(b: Badge) {
    Truthy(b.link)
  }

  /** A linked badge is a link reference around an image reference; any other is a bare image reference. */
  function BadgeNode(key: string, b: Badge): Node {
    if Linked(b) then LinkReference(LinkLabel(key), [ImageReference(ImageLabel(key), b.text)])
    else ImageReference(ImageLabel(key), b.text)
  }

  /** The badges of a group, in the group's key order. */
  function BadgeNodes(o: Entries<Badge>): seq<Node>
    decreases |o|
  {
    if o == [] then [] else [BadgeNode(o[0].0, o[0].1)] + BadgeNodes(o[1..])
  }

  /** The definitions a badge needs: its link (when linked), then its image. */
  function BadgeDefinition(key: string, b: Badge): seq<Node> {
    (if Linked(b) then [Definition(LinkLabel(key), b.link.value)] else []) + [Definition(ImageLabel(key), b.img)]
  }

  function BadgeDefinitions(o: Entries<Badge>): seq<Node>
    decreases |o|
  {
    if o == [] then [] else BadgeDefinition(o[0].0, o[0].1) + BadgeDefinitions(o[1..])
  }

  /** What a zone holds: one paragraph of badges, or nothing for an empty group. */
  function ZoneContent(o: Entries<Badge>): seq<Node> {
    if o == [] then [] else [Paragraph(BadgeNodes(o))]
  }

  /** A badge zone: start marker, content, end marker; emitted even for an empty group. */
  function Zone(g: GroupName, o: Entries<Badge>): seq<Node> {
    [Html(StartMarker(ZoneName(g)))] + ZoneContent(o) + [Html(EndMarker(ZoneName(g)))]
  }

  const TocTitle := "Table of Contents"
  const UsageTitle := "Usage"
  const ContributingTitle := "Contributing"

  /** The documentation text of a section, as one paragraph; none when the text is absent. */
  function SectionText(text: Option<string>): seq<Node> {
    if text.Some? then [Paragraph([Text(text.value)])] else []
  }

  /** A level-2 section: its heading, its zone (if any), then its text. */
  function Section(title: string, zone: seq<Node>, text: Option<string>): seq<Node> {
    [Heading(2, [Text(title)])] + zone + SectionText(text)
  }

  function Toc(d: Option<Documentation>): Option<string> {
    if d.Some? then d.value.toc else None
  }

  function Usage(d: Option<Documentation>): Option<string> {
    if d.Some? then d.value.usage else None
  }

  function Contributing(d: Option<Documentation>): Option<string> {
    if d.Some? then d.value.contributing else None
  }

  /** The title and the description. */
  function Top(req: ReadmeRequest): seq<Node> {
    [Heading(1, [Text(req.projectName)]), Paragraph([Text(req.description)])]
  }

  /** Everything before the reference definitions. */
  function Body(req: ReadmeRequest): seq<Node> {
    Top(req)
    + Zone(Status, req.badges.status)
    + Section(TocTitle, [], Toc(req.documentation))
    + Section(UsageTitle, Zone(Consumer, req.badges.consumer), Usage(req.documentation))
    + Section(ContributingTitle, Zone(Contribution, req.badges.contribution), Contributing(req.documentation))
  }

  /** The definitions of every badge, group by group: status, consumer, contribution. */
  function Definitions(groups: BadgeGroups): seq<Node> {
    BadgeDefinitions(groups.status) + BadgeDefinitions(groups.consumer) + BadgeDefinitions(groups.contribution)
  }

  /** The top-level nodes of the README written for `req`. */
  function Render(req: ReadmeRequest): seq<Node> {
    Body(req) + Definitions(req.badges)
  }

  /**
   * Reference labels name their badge: two badges share a label only when
   * they share a key, and a link label is never an image label.
   */
  lemma LabelsDistinct(k1: string, k2: string)
    ensures LinkLabel(k1) == LinkLabel(k2) <==> k1 == k2
    ensures ImageLabel(k1) == ImageLabel(k2) <==> k1 == k2
    ensures LinkLabel(k1) != ImageLabel(k2)
  {
    var l1, l2, i1, i2 := LinkLabel(k1), LinkLabel(k2), ImageLabel(k1), ImageLabel(k2);
    if l1 == l2 {
      assert k1 == l1[..|k1|] && k2 == l2[..|k2|];
    }
    if i1 == i2 {
      assert k1 == i1[..|k1|] && k2 == i2[..|k2|];
    }
    assert l1[|l1| - 1] == 'k' && i2[|i2| - 1] == 'e';
  }

  /** Zone markers name their zone, and a start marker is never an end marker. */
  lemma MarkersDistinct(z1: string, z2: string)
    ensures StartMarker(z1) == StartMarker(z2) <==> z1 == z2
    ensures EndMarker(z1) == EndMarker(z2) <==> z1 == z2
    ensures StartMarker(z1) != EndMarker(z2)
  {
    var s1, s2, e1, e2 := StartMarker(z1), StartMarker(z2), EndMarker(z1), EndMarker(z2);
    if s1 == s2 {
      assert z1 == s1[4..4 + |z1|] && z2 == s2[4..4 + |z2|];
    }
    if e1 == e2 {
      assert z1 == e1[4..4 + |z1|] && z2 == e2[4..4 + |z2|];
    }
    assert s1[|s1| - 8] == 't' && e2[|e2| - 8] == ' ';
  }

  /** The three zones have three different names. */
  lemma ZoneNamesDistinct(g1: GroupName, g2: GroupName)
    ensures ZoneName(g1) == ZoneName(g2) <==> g1 == g2
  {
    assert |GroupKey(Status)| == 6 && |GroupKey(Consumer)| == 8 && |GroupKey(Contribution)| == 12;
  }
}
