/**
 * What the README integration steps observe in a parsed README
 * (test/integration/features/step_definitions/documentation-steps.js): the
 * badges of a zone, the badge groups keyed by reference label, the table of
 * reference definitions, the range of a section, and the assertions the steps
 * make about them.
 *
 * An assertion that fails, or a step that throws (reading a property of
 * `undefined`), makes the corresponding predicate false; an observer that the
 * source lets yield `undefined` or throw yields `None`.
 */
module Observers {
  import opened Wrappers
  import opened Entries
  import opened Project
  import opened Readme
  import opened Merge

  /** `node.children`; leaves have none. */
  function Children(n: Node): Option<seq<Node>> {
    match n
    case Heading(_, c) => Some(c)
    case Paragraph(c) => Some(c)
    case LinkReference(_, c) => Some(c)
    case _ => None
  }

  /** `node.label` used as an object key: a node without a label gives the key `"undefined"`. */
  function NodeLabel(n: Node): string {
    match n
    case LinkReference(l, _) => l
    case ImageReference(l, _) => l
    case Definition(l, _) => l
    case _ => "undefined"
  }

  /** `node.value`, for the nodes that have one. */
  function ValueOf(n: Node): Option<string> {
    match n
    case Text(v) => Some(v)
    case Html(v) => Some(v)
    case _ => None
  }

  /** The position of the first occurrence of `x`. */
  function First(nodes: seq<Node>, x: Node): (r: Option<nat>)
    ensures r.Some? ==> r.value < |nodes| && nodes[r.value] == x && x !in nodes[..r.value]
    ensures r.None? <==> x !in nodes
    decreases |nodes|
  {
    if nodes == [] then None
    else if nodes[0] == x then Some(0)
    else
      match First(nodes[1..], x)
      case None => None
      case Some(i) =>
        assert nodes[..i + 1] == [nodes[0]] + nodes[1..][..i];
        Some(i + 1)
  }

  /**
   * The zone named `zone` among sibling nodes (`mdast-zone`): the nodes between
   * the first start marker and the end marker that follows it.
   */
  function FindZone(nodes: seq<Node>, zone: string): Option<seq<Node>> {
    Between(nodes, Html(StartMarker(zone)), Html(EndMarker(zone)))
  }

  /** The nodes between the first `start` and the first `end` after it. */
  function Between(nodes: seq<Node>, start: Node, end: Node): Option<seq<Node>> {
    match First(nodes, start)
    case None => None
    case Some(i) =>
      match First(nodes[i + 1..], end)
      case None => None
      case Some(j) => Some(nodes[i + 1..i + 1 + j])
  }

  /** The children of all `nodes`, concatenated; reading the children of a leaf fails. */
  function Flatten(nodes: seq<Node>): Option<seq<Node>>
    decreases |nodes|
  {
    if nodes == [] then Some([])
    else
      match (Children(nodes[0]), Flatten(nodes[1..]))
      case (Some(c), Some(rest)) => Some(c + rest)
      case _ => None
  }

  /** `getBadgesFromZone`: the badges of the zone of `groupName`, or `None` when there is no such zone. */
  function ZoneBadges(nodes: seq<Node>, groupName: string): Option<seq<Node>> {
    match FindZone(nodes, groupName + "-badges")
    case None => None
    case Some(content) => Flatten(content)
  }

  /** `badges.map(badge => [badge.label, badge])` */
  function Labelled(badges: seq<Node>): Entries<Node>
    decreases |badges|
  {
    if badges == [] then [] else [(NodeLabel(badges[0]), badges[0])] + Labelled(badges[1..])
  }

  /** `Object.fromEntries(badges.map(badge => [badge.label, badge]))` */
  function Keyed(badges: seq<Node>): Object<Node> {
    FromEntries(Labelled(badges))
  }

  /** The entry `groupBadges` stores for group `g`, or `None` when its zone is missing. */
  function GroupOf(tree: seq<Node>, g: GroupName): Option<Object<Node>> {
    match ZoneBadges(tree, GroupKey(g))
    case None => None
    case Some(badges) => Some(Keyed(badges))
  }

  /** The order in which `groupBadges` visits the groups. */
  const GroupOrder: seq<GroupName> := [Status, Consumer, Contribution]

  /**
   * `groupBadges`: visits the three groups in order and stores each group's
   * badges keyed by label; a missing zone makes it throw (`None`).
   */
  method GroupBadges(tree: seq<Node>) returns (groups: Option<map<GroupName, Object<Node>>>)
    ensures groups.Some? <==> forall g :: GroupOf(tree, g).Some?
    ensures groups.Some? ==> forall g :: g in groups.value && Some(groups.value[g]) == GroupOf(tree, g)
  {
    var acc: map<GroupName, Object<Node>> := map[];
    var i := 0;
    while i < |GroupOrder|
      invariant 0 <= i <= |GroupOrder|
      invariant forall g :: g in acc <==> g in GroupOrder[..i]
      invariant forall g | g in acc :: GroupOf(tree, g) == Some(acc[g])
    {
      var g := GroupOrder[i];
      var badges := ZoneBadges(tree, GroupKey(g));
      if badges.None? {
        assert GroupOf(tree, g).None?;
        return None;
      }
      acc := acc[g := Keyed(badges.value)];
      i := i + 1;
    }
    forall g ensures g in acc {
      assert GroupOrder[..3] == [Status, Consumer, Contribution];
      match g
      case Status =>
      case Consumer =>
      case Contribution =>
    }
    groups := Some(acc);
  }

  /** The pairs `[label, url]` of the definition nodes, in order. */
  function DefinitionEntries(nodes: seq<Node>): Entries<string>
    decreases |nodes|
  {
    if nodes == [] then []
    else (if nodes[0].Definition? then [(nodes[0].ref, nodes[0].url)] else []) + DefinitionEntries(nodes[1..])
  }

  /** `extractReferences`: each definition's label mapped to its url; a later definition wins. */
  function References(nodes: seq<Node>): Object<string> {
    FromEntries(DefinitionEntries(nodes))
  }

  /** What the steps expect of one badge. */
  datatype BadgeDetails = BadgeDetails(
    linkLabel: string,
    imageReferenceLabel: string,
    imageAltText: string,
    imageSrc: string,
    link: Option<string>)

  /** The details the steps derive from the badge stored under `key`. */
  function DetailsOf(key: string, b: Badge): BadgeDetails {
    BadgeDetails(LinkLabel(key), ImageLabel(key), b.text, b.img, b.link)
  }

  /**
   * `assertGroupContainsBadge`: the group holds, under the link label (or the
   * image label, without a link), a node that is (or whose first child is)
   * an image reference with the expected label and alt text, and the
   * references map the link label to the link (or to nothing) and the image
   * label to the image.
   */
  predicate GroupContainsBadge(group: Object<Node>, references: Object<string>, d: BadgeDetails) {
    var found := Get(group, if Truthy(d.link) then d.linkLabel else d.imageReferenceLabel);
    && found.Some?
    && (Truthy(d.link) ==> Children(found.value).Some? && |Children(found.value).value| > 0)
    && var image := if Truthy(d.link) then Children(found.value).value[0] else found.value;
    && image.ImageReference?
    && image.ref == d.imageReferenceLabel
    && image.alt == d.imageAltText
    && Get(references, d.linkLabel) == (if Truthy(d.link) then d.link else None)
    && Get(references, d.imageReferenceLabel) == Some(d.imageSrc)
  }

  /** `assertGroupDoesNotContainBadge` */
  predicate GroupLacksBadge(group: Object<Node>, references: Object<string>, linkLabel: string, imageReferenceLabel: string) {
    && Get(group, linkLabel).None?
    && Get(references, linkLabel).None?
    && Get(references, imageReferenceLabel).None?
  }

  /** `assertResultingBadgesInBadgeGroup`: every badge of `badges` passes `assertGroupContainsBadge`. */
  predicate ResultingBadgesInGroup(badges: Object<Badge>, group: Object<Node>, references: Object<string>) {
    forall i :: 0 <= i < |badges| ==> GroupContainsBadge(group, references, DetailsOf(badges[i].0, badges[i].1))
  }

  /** `assertTitleIsIncluded`: the first node is a level-1 heading whose first child is the project name. */
  predicate TitleIncluded(tree: seq<Node>, projectName: string) {
    && |tree| > 0
    && Children(tree[0]).Some? && |Children(tree[0]).value| > 0
    && tree[0].Heading? && tree[0].depth == 1
    && Children(tree[0]).value[0] == Text(projectName)
  }

  /** `assertDescriptionIsIncluded`: the second node is a paragraph whose first child is the description. */
  predicate DescriptionIncluded(tree: seq<Node>, description: string) {
    && |tree| > 1
    && Children(tree[1]).Some? && |Children(tree[1]).value| > 0
    && tree[1].Paragraph?
    && Children(tree[1]).value[0] == Text(description)
  }

  /** The node shapes the steps search for with `find`. */
  datatype Pattern =
    | HtmlValue(value: string)
    | HeadingWith(depth: nat, title: string)
    | TextParagraph(text: string)

  /** A partial match, as `find` does it: listed children must occur among the node's children. */
  predicate Matches(n: Node, p: Pattern) {
    match p
    case HtmlValue(v) => n == Html(v)
    case HeadingWith(d, title) => n.Heading? && n.depth == d && exists c :: c in n.children && ValueOf(c) == Some(title)
    case TextParagraph(text) => n.Paragraph? && Text(text) in n.children
  }

  /** `find(tree, pattern)` is defined: some node, at any depth, matches. */
  predicate Occurs(nodes: seq<Node>, p: Pattern)
    decreases nodes
  {
    exists i :: 0 <= i < |nodes| && (Matches(nodes[i], p) || OccursBelow(nodes[i], p))
  }

  predicate OccursBelow(n: Node, p: Pattern)
    decreases n
  {
    match n
    case Heading(_, c) => Occurs(c, p)
    case Paragraph(c) => Occurs(c, p)
    case LinkReference(_, c) => Occurs(c, p)
    case _ => false
  }

  /** `assertBadgesSectionExists`: the start marker of the section's badge zone occurs. */
  predicate BadgesSectionExists(tree: seq<Node>, section: string) {
    Occurs(tree, HtmlValue(StartMarker(section + "-badges")))
  }

  /** The step 'the README includes the core details'. */
  predicate CoreDetailsIncluded(tree: seq<Node>, projectName: string, description: string) {
    && TitleIncluded(tree, projectName)
    && DescriptionIncluded(tree, description)
    && BadgesSectionExists(tree, "status")
    && BadgesSectionExists(tree, "consumer")
    && BadgesSectionExists(tree, "contribution")
  }

  /** The heading `headingRange` looks for: a heading whose text is the title. */
  predicate IsSectionHeading(n: Node, title: string) {
    n.Heading? && n.children == [Text(title)]
  }

  /** The first top-level heading with the title. */
  function SectionStart(tree: seq<Node>, title: string): (r: Option<nat>)
    ensures r.Some? ==> r.value < |tree| && IsSectionHeading(tree[r.value], title)
    ensures r.Some? ==> forall k | 0 <= k < r.value :: !IsSectionHeading(tree[k], title)
    ensures r.None? ==> forall k | 0 <= k < |tree| :: !IsSectionHeading(tree[k], title)
    decreases |tree|
  {
    if tree == [] then None
    else if IsSectionHeading(tree[0], title) then Some(0)
    else
      match SectionStart(tree[1..], title)
      case None => None
      case Some(i) => Some(i + 1)
  }

  /** Where a section that starts with a heading of `depth` ends: the next heading at most that deep, or the end. */
  function SectionEnd(tree: seq<Node>, from: nat, depth: nat): (j: nat)
    requires from <= |tree|
    ensures from <= j <= |tree|
    ensures forall k | from <= k < j :: !(tree[k].Heading? && tree[k].depth <= depth)
    ensures j < |tree| ==> tree[j].Heading? && tree[j].depth <= depth
    decreases |tree| - from
  {
    if from == |tree| then from
    else if tree[from].Heading? && tree[from].depth <= depth then from
    else SectionEnd(tree, from + 1, depth)
  }

  /** `ignoreFinalDefinitions`: the definitions that end a section are not part of it. */
  function TrimDefinitions(nodes: seq<Node>): (r: seq<Node>)
    ensures |r| <= |nodes| && r == nodes[..|r|]
    ensures r == [] || !r[|r| - 1].Definition?
    decreases |nodes|
  {
    if nodes != [] && nodes[|nodes| - 1].Definition? then TrimDefinitions(nodes[..|nodes| - 1]) else nodes
  }

  /**
   * `headingRange(tree, {test: title, ignoreFinalDefinitions: true})`: the
   * nodes after the first heading with the title, up to the next heading at
   * most as deep, without the definitions that end them; `None` when no
   * heading has the title (the callback is not called).
   */
  function SectionNodes(tree: seq<Node>, title: string): Option<seq<Node>> {
    match SectionStart(tree, title)
    case None => None
    case Some(i) => Some(TrimDefinitions(tree[i + 1..SectionEnd(tree, i + 1, tree[i].depth)]))
  }

  /**
   * `assertSectionContentIsCorrect`: when the section exists, the badge zone
   * of its group (if it has one) holds the language's badges of that group,
   * and one of its paragraphs is the documentation text.
   */
  predicate SectionContentIsCorrect(
    tree: seq<Node>, title: string, resultingBadges: Option<LanguageBadges>, references: Object<string>,
    text: Option<string>, group: Option<GroupName>)
  {
    match SectionNodes(tree, title)
    case None => true
    case Some(nodes) =>
      && (group.Some? ==>
        && ZoneBadges(nodes, GroupKey(group.value)).Some?
        && resultingBadges.Some? && resultingBadges.value.Group(group.value).Some?
        && ResultingBadgesInGroup(resultingBadges.value.Group(group.value).value,
          Keyed(ZoneBadges(nodes, GroupKey(group.value)).value), references))
      && text.Some? && Occurs(nodes, TextParagraph(text.value))
  }

  /** `assertTableOfContentsExists`, `assertUsageContentExists` and `assertContributingContentExists`. */
  predicate SectionExists(
    tree: seq<Node>, title: string, resultingBadges: Option<LanguageBadges>, references: Object<string>,
    text: Option<string>, group: Option<GroupName>)
  {
    Occurs(tree, HeadingWith(2, title)) && SectionContentIsCorrect(tree, title, resultingBadges, references, text, group)
  }

  /** The step 'the language content is included in the README'. */
  predicate LanguageContentIncluded(tree: seq<Node>, language: LanguageResult) {
    var references := References(tree);
    var documentation := language.documentation;
    && SectionExists(tree, TocTitle, language.badges, references, Toc(documentation), None)
    && SectionExists(tree, UsageTitle, language.badges, references, Usage(documentation), Some(Consumer))
    && SectionExists(tree, ContributingTitle, language.badges, references, Contributing(documentation), Some(Contribution))
  }

  /** The step 'the README includes the language details': every group the language has badges for shows them. */
  predicate LanguageDetailsIncluded(tree: seq<Node>, language: LanguageResult) {
    && (forall g :: GroupOf(tree, g).Some?)
    && language.badges.Some?
    && forall g | language.badges.value.Group(g).Some? ::
      ResultingBadgesInGroup(language.badges.value.Group(g).value, GroupOf(tree, g).value, References(tree))
  }

  /** The badge details the visibility step expects for the PRs-welcome badge. */
  const PrsDetails := BadgeDetails(
    "PRs-link", "PRs-badge", "PRs Welcome",
    "https://img.shields.io/badge/PRs-welcome-brightgreen.svg", Some("http://makeapullrequest.com"))

  /**
   * The step '{visibility} details are included in the README', with the
   * labels the non-public branch checks: a public README shows the PRs badge
   * in its contribution group, any other lacks the badge with those labels.
   */
  predicate VisibilityChecked(tree: seq<Node>, visibility: string, linkLabel: string, imageReferenceLabel: string) {
    && (forall g :: GroupOf(tree, g).Some?)
    && if visibility == "Public" then GroupContainsBadge(GroupOf(tree, Contribution).value, References(tree), PrsDetails)
       else GroupLacksBadge(GroupOf(tree, Contribution).value, References(tree), linkLabel, imageReferenceLabel)
  }

  /**
   * As written, the non-public branch passes the string `'PRs-link'` where the
   * details object is expected, so both labels it checks are `undefined`.
   */
  predicate VisibilityDetailsIncludedAsWritten(tree: seq<Node>, visibility: string) {
    VisibilityChecked(tree, visibility, "undefined", "undefined")
  }

  /** The evidently intended step: a non-public README lacks the PRs badge's labels. */
  predicate VisibilityDetailsIncluded(tree: seq<Node>, visibility: string) {
    VisibilityChecked(tree, visibility, PrsDetails.linkLabel, PrsDetails.imageReferenceLabel)
  }

  /** A zone delimited by its markers is found, whatever surrounds it, when no start marker comes before it. */
  lemma ZoneFound(pre: seq<Node>, content: seq<Node>, post: seq<Node>, zone: string)
    requires Html(StartMarker(zone)) !in pre && Html(EndMarker(zone)) !in content
    ensures FindZone(pre + ([Html(StartMarker(zone))] + content + [Html(EndMarker(zone))]) + post, zone) == Some(content)
  {
    BetweenFound(pre, Html(StartMarker(zone)), content, Html(EndMarker(zone)), post);
  }

  lemma BetweenFound(pre: seq<Node>, start: Node, content: seq<Node>, end: Node, post: seq<Node>)
    requires start !in pre && end !in content
    ensures Between(pre + ([start] + content + [end]) + post, start, end) == Some(content)
  {
    var nodes := pre + ([start] + content + [end]) + post;
    ZoneSlices(pre, start, content, end, post);
    BetweenAt(nodes, start, end, |pre|, content);
  }

  lemma ZoneSlices(pre: seq<Node>, start: Node, content: seq<Node>, end: Node, post: seq<Node>)
    ensures var nodes := pre + ([start] + content + [end]) + post;
      && |pre| + 1 + |content| < |nodes|
      && nodes[..|pre|] == pre
      && nodes[|pre|] == start
      && nodes[|pre| + 1..|pre| + 1 + |content|] == content
      && nodes[|pre| + 1 + |content|] == end
  {
  }

  /** `Between` in terms of positions: `start` first at `i`, then `content`, then `end`. */
  lemma BetweenAt(nodes: seq<Node>, start: Node, end: Node, i: nat, content: seq<Node>)
    requires i + 1 + |content| < |nodes| && nodes[i] == start && start !in nodes[..i]
    requires nodes[i + 1..i + 1 + |content|] == content && nodes[i + 1 + |content|] == end && end !in content
    ensures Between(nodes, start, end) == Some(content)
  {
    FirstIs(nodes, start, i);
    var rest := nodes[i + 1..];
    assert rest[..|content|] == content;
    FirstIs(rest, end, |content|);
    assert Between(nodes, start, end) == Some(nodes[i + 1..i + 1 + |content|]);
  }

  lemma FirstIs(nodes: seq<Node>, x: Node, i: nat)
    requires i < |nodes| && nodes[i] == x && x !in nodes[..i]
    ensures First(nodes, x) == Some(i)
  {
  }

  /** The badges of a rendered zone are the group's badge nodes. */
  lemma ZoneContentBadges(o: Entries<Badge>)
    ensures Flatten(ZoneContent(o)) == Some(BadgeNodes(o))
    ensures Html(EndMarker(ZoneName(Status))) !in ZoneContent(o)
    ensures forall z :: Html(EndMarker(z)) !in ZoneContent(o)
  {
    if o != [] {
      assert ZoneContent(o)[1..] == [];
      assert BadgeNodes(o) + [] == BadgeNodes(o);
    }
  }

  lemma LabelledCons(n: Node, rest: seq<Node>)
    ensures Labelled([n] + rest) == [(NodeLabel(n), n)] + Labelled(rest)
  {
    assert ([n] + rest)[1..] == rest;
  }

  /**
   * In a rendered group, the badge stored under `key` is found under its
   * link label when it is linked and under its image label otherwise; the
   * labels of a key the group lacks are not there.
   */
  lemma {:induction false} BadgeNodesLookup(o: Object<Badge>, key: string)
    ensures HasKey(o, key) ==>
      var b := Get(o, key).value;
      LastValue(Labelled(BadgeNodes(o)), if Linked(b) then LinkLabel(key) else ImageLabel(key)) == Some(BadgeNode(key, b))
    ensures !HasKey(o, key) ==>
      LastValue(Labelled(BadgeNodes(o)), LinkLabel(key)).None? && LastValue(Labelled(BadgeNodes(o)), ImageLabel(key)).None?
    decreases |o|
  {
    if o != [] {
      var rest: Object<Badge> := o[1..];
      var (k0, b0) := o[0];
      var n0 := BadgeNode(k0, b0);
      BadgeNodesLookup(rest, key);
      GetCons(o, key);
      LabelledCons(n0, BadgeNodes(rest));
      LabelsDistinct(k0, key);
      LabelsDistinct(key, k0);
      assert [(NodeLabel(n0), n0)][1..] == [];
      LastValueAppend([(NodeLabel(n0), n0)], Labelled(BadgeNodes(rest)), LinkLabel(key));
      LastValueAppend([(NodeLabel(n0), n0)], Labelled(BadgeNodes(rest)), ImageLabel(key));
    }
  }

  lemma {:induction false} DefinitionEntriesAppend(a: seq<Node>, b: seq<Node>)
    ensures DefinitionEntries(a + b) == DefinitionEntries(a) + DefinitionEntries(b)
    decreases |a|
  {
    if a == [] {
      assert a + b == b;
    } else {
      var head := if a[0].Definition? then [(a[0].ref, a[0].url)] else [];
      assert (a + b)[0] == a[0];
      assert (a + b)[1..] == a[1..] + b;
      DefinitionEntriesAppend(a[1..], b);
      assert DefinitionEntries(a + b) == head + (DefinitionEntries(a[1..]) + DefinitionEntries(b));
      assert head + (DefinitionEntries(a[1..]) + DefinitionEntries(b)) == (head + DefinitionEntries(a[1..])) + DefinitionEntries(b);
    }
  }

  /** The definitions of one badge: its link label (when linked), then its image label. */
  lemma BadgeDefinitionEntries(key: string, b: Badge)
    ensures DefinitionEntries(BadgeDefinition(key, b)) ==
      (if Linked(b) then [(LinkLabel(key), b.link.value)] else []) + [(ImageLabel(key), b.img)]
  {
    var image := Definition(ImageLabel(key), b.img);
    assert DefinitionEntries([image]) == [(ImageLabel(key), b.img)] by {
      assert [image][1..] == [];
    }
    if Linked(b) {
      var link := Definition(LinkLabel(key), b.link.value);
      assert [link, image] == [link] + [image];
      DefinitionEntriesAppend([link], [image]);
      assert DefinitionEntries([link]) == [(LinkLabel(key), b.link.value)] by {
        assert [link][1..] == [];
      }
    }
  }

  /** The image of the badge stored under `key`, if the group has one. */
  function ImageOf(o: Object<Badge>, key: string): Option<string> {
    if HasKey(o, key) then Some(Get(o, key).value.img) else None
  }

  /** The link of the badge stored under `key`, if the group has one and it is truthy. */
  function LinkOf(o: Object<Badge>, key: string): Option<string> {
    if HasKey(o, key) && Linked(Get(o, key).value) then Get(o, key).value.link else None
  }

  /**
   * In the definitions of a group, the image label of a key maps to its image
   * and its link label to its link when it is linked; a key the group lacks
   * has neither.
   */
  lemma {:induction false} BadgeDefinitionsLookup(o: Object<Badge>, key: string)
    ensures LastValue(DefinitionEntries(BadgeDefinitions(o)), ImageLabel(key)) == ImageOf(o, key)
    ensures LastValue(DefinitionEntries(BadgeDefinitions(o)), LinkLabel(key)) == LinkOf(o, key)
    decreases |o|
  {
    if o != [] {
      var rest: Object<Badge> := o[1..];
      var (k0, b0) := o[0];
      BadgeDefinitionsLookup(rest, key);
      GetCons(o, key);
      LabelsDistinct(k0, key);
      LabelsDistinct(key, k0);
      assert [(ImageLabel(k0), b0.img)][1..] == [];
      var head := DefinitionEntries(BadgeDefinition(k0, b0));
      var tail := DefinitionEntries(BadgeDefinitions(rest));
      DefinitionEntriesAppend(BadgeDefinition(k0, b0), BadgeDefinitions(rest));
      BadgeDefinitionEntries(k0, b0);
      LastValueAppend(head, tail, LinkLabel(key));
      LastValueAppend(head, tail, ImageLabel(key));
      var linkPart: Entries<string> := if Linked(b0) then [(LinkLabel(k0), b0.link.value)] else [];
      LastValueAppend(linkPart, [(ImageLabel(k0), b0.img)], LinkLabel(key));
      LastValueAppend(linkPart, [(ImageLabel(k0), b0.img)], ImageLabel(key));
    }
  }

  /** No node of a zone is the start marker of another zone. */
  lemma ZoneAvoids(g: GroupName, h: GroupName, o: Entries<Badge>)
    requires g != h
    ensures Html(StartMarker(ZoneName(g))) !in Zone(h, o)
  {
    ZoneNamesDistinct(g, h);
    MarkersDistinct(ZoneName(g), ZoneName(h));
  }

  lemma Assoc(a: seq<Node>, b: seq<Node>, c: seq<Node>)
    ensures a + b + c == a + (b + c)
  {
  }

  /** The rendered README around the zone of group `g`: nothing before it is the zone's start marker. */
  lemma RenderSplit(req: ReadmeRequest, g: GroupName) returns (pre: seq<Node>, post: seq<Node>)
    ensures Render(req) == pre + Zone(g, req.badges.Group(g)) + post
    ensures Html(StartMarker(ZoneName(g))) !in pre
  {
    var top, defs := Top(req), Definitions(req.badges);
    var status := Zone(Status, req.badges.status);
    var consumer := Zone(Consumer, req.badges.consumer);
    var contribution := Zone(Contribution, req.badges.contribution);
    var toc := Section(TocTitle, [], Toc(req.documentation));
    var usageHead, usageText := [Heading(2, [Text(UsageTitle)])], SectionText(Usage(req.documentation));
    var contributingHead, contributingText := [Heading(2, [Text(ContributingTitle)])], SectionText(Contributing(req.documentation));
    var usage, contributing := usageHead + consumer + usageText, contributingHead + contribution + contributingText;
    assert Render(req) == top + status + toc + usage + contributing + defs;
    match g
    case Status =>
      Assoc(top + status, toc, usage);
      Assoc(top + status, toc + usage, contributing);
      Assoc(top + status, toc + usage + contributing, defs);
      pre, post := top, toc + usage + contributing + defs;
    case Consumer =>
      ZoneAvoids(Consumer, Status, req.badges.status);
      var p := top + status + toc;
      Assoc(p, usageHead + consumer, usageText);
      Assoc(p, usageHead, consumer);
      Assoc(p + usageHead + consumer, usageText, contributing);
      Assoc(p + usageHead + consumer, usageText + contributing, defs);
      pre, post := p + usageHead, usageText + contributing + defs;
    case Contribution =>
      ZoneAvoids(Contribution, Status, req.badges.status);
      ZoneAvoids(Contribution, Consumer, req.badges.consumer);
      var p := top + status + toc + usage;
      Assoc(p, contributingHead + contribution, contributingText);
      Assoc(p, contributingHead, contribution);
      Assoc(p + contributingHead + contribution, contributingText, defs);
      pre, post := p + contributingHead, contributingText + defs;
  }

  /**
   * `groupBadges` on a rendered README finds every group's zone and keys the
   * badge nodes of that group by label.
   */
  lemma GroupsRendered(req: ReadmeRequest, g: GroupName)
    ensures GroupOf(Render(req), g) == Some(Keyed(BadgeNodes(req.badges.Group(g))))
  {
    var o := req.badges.Group(g);
    var pre, post := RenderSplit(req, g);
    ZoneContentBadges(o);
    ZoneFound(pre, ZoneContent(o), post, ZoneName(g));
  }

  /** No node of the body of a rendered README is a definition. */
  lemma {:induction false} NoDefinitions(nodes: seq<Node>)
    requires forall n | n in nodes :: !n.Definition?
    ensures DefinitionEntries(nodes) == []
    decreases |nodes|
  {
    if nodes != [] {
      assert nodes[0] in nodes;
      NoDefinitions(nodes[1..]);
    }
  }

  /** The reference definitions of a rendered README are the badge definitions, group by group. */
  lemma DefinitionsRendered(req: ReadmeRequest)
    ensures DefinitionEntries(Render(req)) ==
      DefinitionEntries(BadgeDefinitions(req.badges.status))
      + DefinitionEntries(BadgeDefinitions(req.badges.consumer))
      + DefinitionEntries(BadgeDefinitions(req.badges.contribution))
  {
    var g := req.badges;
    forall n | n in Body(req) ensures !n.Definition? {
    }
    NoDefinitions(Body(req));
    DefinitionEntriesAppend(Body(req), Definitions(g));
    DefinitionEntriesAppend(BadgeDefinitions(g.status) + BadgeDefinitions(g.consumer), BadgeDefinitions(g.contribution));
    DefinitionEntriesAppend(BadgeDefinitions(g.status), BadgeDefinitions(g.consumer));
  }

  /** A later value, when there is one, overrides an earlier one. */
  function Later<T>(earlier: Option<T>, later: Option<T>): Option<T> {
    if later.Some? then later else earlier
  }

  /**
   * `extractReferences` on a rendered README: the labels of a key map to the
   * image and link of its badge in the last group (status, consumer,
   * contribution) that has the key.
   */
  lemma ReferencesRendered(req: ReadmeRequest, key: string)
    ensures var g := req.badges;
      Get(References(Render(req)), ImageLabel(key)) ==
        Later(Later(ImageOf(g.status, key), ImageOf(g.consumer, key)), ImageOf(g.contribution, key))
    ensures var g := req.badges;
      Get(References(Render(req)), LinkLabel(key)) ==
        Later(Later(LinkOf(g.status, key), LinkOf(g.consumer, key)), LinkOf(g.contribution, key))
  {
    var g := req.badges;
    var s, c, t := DefinitionEntries(BadgeDefinitions(g.status)), DefinitionEntries(BadgeDefinitions(g.consumer)), DefinitionEntries(BadgeDefinitions(g.contribution));
    DefinitionsRendered(req);
    BadgeDefinitionsLookup(g.status, key);
    BadgeDefinitionsLookup(g.consumer, key);
    BadgeDefinitionsLookup(g.contribution, key);
    FromEntriesGet(s + c + t, ImageLabel(key));
    FromEntriesGet(s + c + t, LinkLabel(key));
    LastValueAppend(s + c, t, ImageLabel(key));
    LastValueAppend(s, c, ImageLabel(key));
    LastValueAppend(s + c, t, LinkLabel(key));
    LastValueAppend(s, c, LinkLabel(key));
  }

  /** The badge keys of group `g` that no other group has. */
  predicate OnlyIn(groups: BadgeGroups, g: GroupName, key: string) {
    HasKey(groups.Group(g), key) && forall h :: h != g ==> !HasKey(groups.Group(h), key)
  }

  /**
   * A badge the README is asked to show in group `g`, and in no other group,
   * passes `assertGroupContainsBadge` against the keyed badges of its zone and
   * the references of the rendered README.
   */
  lemma BadgeRendered(req: ReadmeRequest, g: GroupName, key: string)
    requires OnlyIn(req.badges, g, key)
    ensures GroupContainsBadge(Keyed(BadgeNodes(req.badges.Group(g))), References(Render(req)),
      DetailsOf(key, Get(req.badges.Group(g), key).value))
  {
    var o := req.badges.Group(g);
    var b := Get(o, key).value;
    var found := if Linked(b) then LinkLabel(key) else ImageLabel(key);
    BadgeNodesLookup(o, key);
    FromEntriesGet(Labelled(BadgeNodes(o)), found);
    ReferencesOnlyIn(req, g, key);
    ContainsBadge(Keyed(BadgeNodes(o)), References(Render(req)), key, b);
  }

  /** What `assertGroupContainsBadge` needs of a group and the references to accept a badge. */
  lemma ContainsBadge(group: Object<Node>, references: Object<string>, key: string, b: Badge)
    requires Get(group, if Linked(b) then LinkLabel(key) else ImageLabel(key)) == Some(BadgeNode(key, b))
    requires Get(references, ImageLabel(key)) == Some(b.img)
    requires Get(references, LinkLabel(key)) == if Linked(b) then b.link else None
    ensures GroupContainsBadge(group, references, DetailsOf(key, b))
  {
  }

  /** The references of a badge that only group `g` has are those of its badge in `g`. */
  lemma ReferencesOnlyIn(req: ReadmeRequest, g: GroupName, key: string)
    requires OnlyIn(req.badges, g, key)
    ensures Get(References(Render(req)), ImageLabel(key)) == ImageOf(req.badges.Group(g), key)
    ensures Get(References(Render(req)), LinkLabel(key)) == LinkOf(req.badges.Group(g), key)
  {
    ReferencesRendered(req, key);
    var groups := req.badges;
    var absent := (h: GroupName) => !HasKey(groups.Group(h), key);
    match g
    case Status =>
      assert absent(Consumer) && absent(Contribution);
    case Consumer =>
      assert absent(Status) && absent(Contribution);
    case Contribution =>
      assert absent(Status) && absent(Consumer);
  }

  /**
   * `groupBadges` and `assertResultingBadgesInBadgeGroup` on a rendered
   * README: every badge of group `g` whose key no other group has is found in
   * `g`'s zone with its alt text, image and link.
   */
  lemma GroupRendered(req: ReadmeRequest, g: GroupName, expected: Object<Badge>)
    requires forall i | 0 <= i < |expected| :: OnlyIn(req.badges, g, expected[i].0)
    requires forall i | 0 <= i < |expected| :: Get(req.badges.Group(g), expected[i].0) == Some(expected[i].1)
    ensures GroupOf(Render(req), g).Some?
    ensures ResultingBadgesInGroup(expected, GroupOf(Render(req), g).value, References(Render(req)))
  {
    GroupsRendered(req, g);
    forall i | 0 <= i < |expected|
      ensures GroupContainsBadge(GroupOf(Render(req), g).value, References(Render(req)), DetailsOf(expected[i].0, expected[i].1))
    {
      BadgeRendered(req, g, expected[i].0);
    }
  }

  /** The start marker of every zone occurs in a rendered README. */
  lemma ZoneMarkerRendered(req: ReadmeRequest, g: GroupName)
    ensures Occurs(Render(req), HtmlValue(StartMarker(ZoneName(g))))
  {
    var pre, post := RenderSplit(req, g);
    var tree := Render(req);
    assert tree[|pre|] == Html(StartMarker(ZoneName(g)));
    assert Matches(tree[|pre|], HtmlValue(StartMarker(ZoneName(g))));
  }

  /** A rendered README passes 'the README includes the core details' for its own name and description. */
  lemma CoreDetailsRendered(req: ReadmeRequest)
    ensures CoreDetailsIncluded(Render(req), req.projectName, req.description)
  {
    var tree := Render(req);
    assert tree[..2] == Top(req);
    ZoneMarkerRendered(req, Status);
    ZoneMarkerRendered(req, Consumer);
    ZoneMarkerRendered(req, Contribution);
  }

  /** A group that lacks `key` anywhere shows no badge for it and defines neither of its labels. */
  lemma BadgeAbsent(req: ReadmeRequest, g: GroupName, key: string)
    requires forall h :: !HasKey(req.badges.Group(h), key)
    ensures GroupLacksBadge(Keyed(BadgeNodes(req.badges.Group(g))), References(Render(req)), LinkLabel(key), ImageLabel(key))
  {
    var groups := req.badges;
    assert !HasKey(groups.Group(g), key);
    BadgeNodesLookup(groups.Group(g), key);
    FromEntriesGet(Labelled(BadgeNodes(groups.Group(g))), LinkLabel(key));
    ReferencesAbsent(req, key);
  }

  /** A key no group has leaves no reference definition under its labels. */
  lemma ReferencesAbsent(req: ReadmeRequest, key: string)
    requires forall h :: !HasKey(req.badges.Group(h), key)
    ensures Get(References(Render(req)), LinkLabel(key)).None?
    ensures Get(References(Render(req)), ImageLabel(key)).None?
  {
    var groups := req.badges;
    assert !HasKey(groups.Group(Status), key) && !HasKey(groups.Group(Consumer), key) && !HasKey(groups.Group(Contribution), key);
    ReferencesRendered(req, key);
  }

  /** `undefined` is never the label of a badge. */
  lemma UndefinedIsNoLabel(key: string)
    ensures LinkLabel(key) != "undefined" && ImageLabel(key) != "undefined"
  {
    var l, i := LinkLabel(key), ImageLabel(key);
    assert l[|l| - 1] == 'k' && i[|i| - 1] == 'e';
  }

  /** No badge node and no badge definition of a group has the label `undefined`. */
  lemma {:induction false} NoUndefinedLabel(o: Entries<Badge>)
    ensures LastValue(Labelled(BadgeNodes(o)), "undefined").None?
    ensures LastValue(DefinitionEntries(BadgeDefinitions(o)), "undefined").None?
    decreases |o|
  {
    if o != [] {
      var (k0, b0) := o[0];
      var n0 := BadgeNode(k0, b0);
      NoUndefinedLabel(o[1..]);
      UndefinedIsNoLabel(k0);
      LabelledCons(n0, BadgeNodes(o[1..]));
      assert [(NodeLabel(n0), n0)][1..] == [];
      LastValueAppend([(NodeLabel(n0), n0)], Labelled(BadgeNodes(o[1..])), "undefined");
      var head := DefinitionEntries(BadgeDefinition(k0, b0));
      DefinitionEntriesAppend(BadgeDefinition(k0, b0), BadgeDefinitions(o[1..]));
      BadgeDefinitionEntries(k0, b0);
      LastValueAppend(head, DefinitionEntries(BadgeDefinitions(o[1..])), "undefined");
      var linkPart: Entries<string> := if Linked(b0) then [(LinkLabel(k0), b0.link.value)] else [];
      assert [(ImageLabel(k0), b0.img)][1..] == [];
      LastValueAppend(linkPart, [(ImageLabel(k0), b0.img)], "undefined");
    }
  }

  /** A rendered README defines no reference labelled `undefined`. */
  lemma UndefinedUnreferenced(req: ReadmeRequest)
    ensures Get(References(Render(req)), "undefined").None?
  {
    var g := req.badges;
    var s, c, t := DefinitionEntries(BadgeDefinitions(g.status)), DefinitionEntries(BadgeDefinitions(g.consumer)), DefinitionEntries(BadgeDefinitions(g.contribution));
    DefinitionsRendered(req);
    NoUndefinedLabel(g.status);
    NoUndefinedLabel(g.consumer);
    NoUndefinedLabel(g.contribution);
    FromEntriesGet(s + c + t, "undefined");
    LastValueAppend(s + c, t, "undefined");
    LastValueAppend(s, c, "undefined");
  }

  /** `groupBadges` succeeds on a rendered README, with every group keyed from its zone. */
  lemma AllGroupsRendered(req: ReadmeRequest)
    ensures forall g :: GroupOf(Render(req), g) == Some(Keyed(BadgeNodes(req.badges.Group(g))))
  {
    forall g ensures GroupOf(Render(req), g) == Some(Keyed(BadgeNodes(req.badges.Group(g)))) {
      GroupsRendered(req, g);
    }
  }

  /** The details the visibility step expects are those of the PRs badge the scaffolder adds. */
  lemma PrsDetailsOfBadge()
    ensures DetailsOf(PrsKey, PrsBadge) == PrsDetails
    ensures LinkLabel(PrsKey) == PrsDetails.linkLabel && ImageLabel(PrsKey) == PrsDetails.imageReferenceLabel
  {
    assert LinkLabel(PrsKey) == "PRs-link";
    assert ImageLabel(PrsKey) == "PRs-badge";
  }

  /** The visibility step in terms of the contribution group it reads. */
  lemma VisibilityFrom(tree: seq<Node>, visibility: string, linkLabel: string, imageReferenceLabel: string, contribution: Object<Node>)
    requires forall g :: GroupOf(tree, g).Some?
    requires GroupOf(tree, Contribution) == Some(contribution)
    requires visibility == "Public" ==> GroupContainsBadge(contribution, References(tree), PrsDetails)
    requires visibility != "Public" ==> GroupLacksBadge(contribution, References(tree), linkLabel, imageReferenceLabel)
    ensures VisibilityChecked(tree, visibility, linkLabel, imageReferenceLabel)
  {
  }

  /**
   * The non-public branch of the visibility step, as written, accepts every
   * rendered README, including one whose contribution group shows the PRs
   * badge.
   */
  lemma VisibilityCheckAsWrittenVacuous(req: ReadmeRequest, visibility: string)
    requires visibility != "Public"
    ensures VisibilityDetailsIncludedAsWritten(Render(req), visibility)
  {
    AllGroupsRendered(req);
    var o := req.badges.Group(Contribution);
    NoUndefinedLabel(o);
    FromEntriesGet(Labelled(BadgeNodes(o)), "undefined");
    UndefinedUnreferenced(req);
    VisibilityFrom(Render(req), visibility, "undefined", "undefined", Keyed(BadgeNodes(o)));
  }

  /** The intended non-public check rejects a README whose contribution group has the PRs badge. */
  lemma VisibilityCheckCatchesPrs(req: ReadmeRequest, visibility: string)
    requires visibility != "Public" && HasKey(req.badges.contribution, PrsKey)
    ensures !VisibilityDetailsIncluded(Render(req), visibility)
  {
    ReferencesRendered(req, PrsKey);
    PrsDetailsOfBadge();
  }

  /**
   * The badge groups the scaffolder hands to the README scaffolder keep each
   * of the language's badges, unless a fixed badge overrides its key.
   */
  lemma MergedKeeps(language: Option<LanguageResult>, license: LicenseResult, visibility: string, g: GroupName, key: string)
    requires HasKey(LanguageGroup(language, g), key)
    requires g == Consumer && license.badges.Some? ==> key != LicenseKey
    requires g == Contribution && visibility == "Public" ==> key != PrsKey
    ensures Get(ReadmeBadges(language, license, visibility).Group(g), key) == Get(LanguageGroup(language, g), key)
  {
    ConsumerGroupGet(language, license, key);
    ContributionGroupGet(language, visibility, key);
  }

  /** No badge key is in two groups. */
  ghost predicate Disjoint(groups: BadgeGroups) {
    forall g, h, key | g != h && HasKey(groups.Group(g), key) :: !HasKey(groups.Group(h), key)
  }

  /**
   * A linked badge of the contribution group passes `assertGroupContainsBadge`
   * whatever the other groups hold under its key: the contribution group's
   * definitions come last, so its image and link are the ones referenced.
   */
  lemma ContributionBadgeRendered(req: ReadmeRequest, key: string)
    requires HasKey(req.badges.contribution, key) && Linked(Get(req.badges.contribution, key).value)
    ensures GroupContainsBadge(Keyed(BadgeNodes(req.badges.Group(Contribution))), References(Render(req)),
      DetailsOf(key, Get(req.badges.contribution, key).value))
  {
    var o := req.badges.Group(Contribution);
    assert o == req.badges.contribution;
    LinkedNodeKeyed(o, key);
    LastGroupReferences(req, key);
    ContainsLinkedBadge(Keyed(BadgeNodes(o)), References(Render(req)), key, Get(o, key).value);
  }

  /** `ContainsBadge` for a linked badge. */
  lemma ContainsLinkedBadge(group: Object<Node>, references: Object<string>, key: string, b: Badge)
    requires Linked(b)
    requires Get(group, LinkLabel(key)) == Some(BadgeNode(key, b))
    requires Get(references, ImageLabel(key)) == Some(b.img) && Get(references, LinkLabel(key)) == b.link
    ensures GroupContainsBadge(group, references, DetailsOf(key, b))
  {
    ContainsBadge(group, references, key, b);
  }

  /** Keyed by label, a group's badge nodes hold a linked badge under its link label. */
  lemma LinkedNodeKeyed(o: Object<Badge>, key: string)
    requires HasKey(o, key) && Linked(Get(o, key).value)
    ensures Get(Keyed(BadgeNodes(o)), LinkLabel(key)) == Some(BadgeNode(key, Get(o, key).value))
  {
    BadgeNodesLookup(o, key);
    FromEntriesGet(Labelled(BadgeNodes(o)), LinkLabel(key));
  }

  /** The references of a linked badge of the contribution group are its own image and link. */
  lemma LastGroupReferences(req: ReadmeRequest, key: string)
    requires HasKey(req.badges.contribution, key) && Linked(Get(req.badges.contribution, key).value)
    ensures Get(References(Render(req)), ImageLabel(key)) == Some(Get(req.badges.contribution, key).value.img)
    ensures Get(References(Render(req)), LinkLabel(key)) == Get(req.badges.contribution, key).value.link
  {
    ReferencesRendered(req, key);
  }

  /**
   * A public project's README shows the PRs badge as the visibility step
   * expects, whatever badges the language puts under `PRs`.
   */
  lemma PublicReadmeRendered(req: ReadmeRequest, language: Option<LanguageResult>, license: LicenseResult)
    requires req.badges == ReadmeBadges(language, license, "Public")
    ensures VisibilityDetailsIncluded(Render(req), "Public")
  {
    var contribution := req.badges.Group(Contribution);
    ContributionGroupGet(language, "Public", PrsKey);
    ContributionBadgeRendered(req, PrsKey);
    AllGroupsRendered(req);
    PrsDetailsOfBadge();
    VisibilityFrom(Render(req), "Public", PrsDetails.linkLabel, PrsDetails.imageReferenceLabel,
      Keyed(BadgeNodes(contribution)));
  }

  /** In a public project's badge groups, `PRs` is the PRs badge and only in the contribution group. */
  lemma PrsOnlyInContribution(groups: BadgeGroups, language: Option<LanguageResult>, license: LicenseResult)
    requires groups == ReadmeBadges(language, license, "Public")
    requires !HasKey(LanguageGroup(language, Status), PrsKey) && !HasKey(LanguageGroup(language, Consumer), PrsKey)
    ensures OnlyIn(groups, Contribution, PrsKey) && Get(groups.Group(Contribution), PrsKey) == Some(PrsBadge)
  {
    ConsumerGroupGet(language, license, PrsKey);
    ContributionGroupGet(language, "Public", PrsKey);
  }

  /** With no language badge under `PRs`, the groups of a non-public project have none either. */
  lemma PrsNowhere(groups: BadgeGroups, language: Option<LanguageResult>, license: LicenseResult, visibility: string)
    requires visibility != "Public"
    requires groups == ReadmeBadges(language, license, visibility)
    requires forall g :: !HasKey(LanguageGroup(language, g), PrsKey)
    ensures forall h :: !HasKey(groups.Group(h), PrsKey)
  {
    ConsumerGroupGet(language, license, PrsKey);
    ContributionGroupGet(language, visibility, PrsKey);
    assert !HasKey(LanguageGroup(language, Status), PrsKey) && !HasKey(LanguageGroup(language, Consumer), PrsKey);
    assert !HasKey(LanguageGroup(language, Contribution), PrsKey);
  }

  /**
   * A README of any other visibility lacks the PRs badge's labels, when the
   * language has no badge under `PRs`.
   */
  lemma PrivateReadmeRendered(req: ReadmeRequest, language: Option<LanguageResult>, license: LicenseResult, visibility: string)
    requires visibility != "Public"
    requires req.badges == ReadmeBadges(language, license, visibility)
    requires forall g :: !HasKey(LanguageGroup(language, g), PrsKey)
    ensures VisibilityDetailsIncluded(Render(req), visibility)
  {
    PrsNowhere(req.badges, language, license, visibility);
    BadgeAbsent(req, Contribution, PrsKey);
    AllGroupsRendered(req);
    PrsDetailsOfBadge();
    VisibilityFrom(Render(req), visibility, PrsDetails.linkLabel, PrsDetails.imageReferenceLabel,
      Keyed(BadgeNodes(req.badges.Group(Contribution))));
  }

  /**
   * 'the README includes the language details' holds for the README of the
   * scaffolded request, when no badge key is in two groups and no fixed
   * badge overrides one of the language's.
   */
  lemma LanguageDetailsRendered(req: ReadmeRequest, language: LanguageResult, license: LicenseResult, visibility: string)
    requires req.badges == ReadmeBadges(Some(language), license, visibility)
    requires language.badges.Some?
    requires Disjoint(req.badges)
    requires license.badges.Some? ==> !HasKey(LanguageGroup(Some(language), Consumer), LicenseKey)
    requires visibility == "Public" ==> !HasKey(LanguageGroup(Some(language), Contribution), PrsKey)
    ensures LanguageDetailsIncluded(Render(req), language)
  {
    forall g ensures GroupOf(Render(req), g).Some? {
      GroupsRendered(req, g);
    }
    forall g | language.badges.value.Group(g).Some?
      ensures ResultingBadgesInGroup(language.badges.value.Group(g).value, GroupOf(Render(req), g).value, References(Render(req)))
    {
      LanguageShown(req, language, license, visibility, g);
    }
  }

  lemma LanguageShown(req: ReadmeRequest, language: LanguageResult, license: LicenseResult, visibility: string, g: GroupName)
    requires req.badges == ReadmeBadges(Some(language), license, visibility)
    requires language.badges.Some? && language.badges.value.Group(g).Some?
    requires Disjoint(req.badges)
    requires license.badges.Some? ==> !HasKey(LanguageGroup(Some(language), Consumer), LicenseKey)
    requires visibility == "Public" ==> !HasKey(LanguageGroup(Some(language), Contribution), PrsKey)
    ensures GroupOf(Render(req), g).Some?
    ensures ResultingBadgesInGroup(language.badges.value.Group(g).value, GroupOf(Render(req), g).value, References(Render(req)))
  {
    var expected := language.badges.value.Group(g).value;
    assert expected == LanguageGroup(Some(language), g);
    forall i | 0 <= i < |expected|
      ensures OnlyIn(req.badges, g, expected[i].0) && Get(req.badges.Group(g), expected[i].0) == Some(expected[i].1)
    {
      GetAt(expected, i);
      MergedKeeps(Some(language), license, visibility, g, expected[i].0);
    }
    GroupRendered(req, g, expected);
  }

  lemma SectionStartIs(tree: seq<Node>, title: string, i: nat)
    requires i < |tree| && IsSectionHeading(tree[i], title)
    requires forall k | 0 <= k < i :: !IsSectionHeading(tree[k], title)
    ensures SectionStart(tree, title) == Some(i)
  {
  }

  lemma SectionEndIs(tree: seq<Node>, from: nat, depth: nat, j: nat)
    requires from <= j <= |tree|
    requires forall k | from <= k < j :: !(tree[k].Heading? && tree[k].depth <= depth)
    requires j < |tree| ==> tree[j].Heading? && tree[j].depth <= depth
    ensures SectionEnd(tree, from, depth) == j
  {
  }

  /** Trimming the final definitions leaves what comes before them. */
  lemma {:induction false} TrimDefinitionsIs(content: seq<Node>, defs: seq<Node>)
    requires forall n | n in defs :: n.Definition?
    requires content == [] || !content[|content| - 1].Definition?
    ensures TrimDefinitions(content + defs) == content
    decreases |defs|
  {
    if defs == [] {
      assert content + defs == content;
    } else {
      var nodes := content + defs;
      assert nodes[|nodes| - 1] == defs[|defs| - 1];
      assert defs[|defs| - 1] in defs;
      assert nodes[..|nodes| - 1] == content + defs[..|defs| - 1];
      TrimDefinitionsIs(content, defs[..|defs| - 1]);
    }
  }

  /** The nodes of a section in positions: its heading at `i`, then `content`, then what ends it. */
  lemma SectionAt(tree: seq<Node>, title: string, i: nat, content: seq<Node>, post: seq<Node>)
    requires i < |tree| && tree[i] == Heading(2, [Text(title)])
    requires forall k | 0 <= k < i :: !IsSectionHeading(tree[k], title)
    requires tree[i + 1..] == content + post
    requires forall n | n in content :: !(n.Heading? && n.depth <= 2)
    requires content == [] || !content[|content| - 1].Definition?
    requires (post != [] && post[0].Heading? && post[0].depth <= 2) || forall n | n in post :: n.Definition?
    ensures SectionNodes(tree, title) == Some(content)
  {
    SectionStartIs(tree, title, i);
    if post != [] && post[0].Heading? && post[0].depth <= 2 {
      SectionBeforeHeading(tree, i, content, post);
    } else {
      SectionBeforeEnd(tree, i, content, post);
    }
  }

  /** The trimmed nodes of a section that a heading ends are its content. */
  lemma SectionBeforeHeading(tree: seq<Node>, i: nat, content: seq<Node>, post: seq<Node>)
    requires i < |tree| && tree[i + 1..] == content + post
    requires forall n | n in content :: !(n.Heading? && n.depth <= 2)
    requires content == [] || !content[|content| - 1].Definition?
    requires post != [] && post[0].Heading? && post[0].depth <= 2
    ensures TrimDefinitions(tree[i + 1..SectionEnd(tree, i + 1, 2)]) == content
  {
    SectionEndsAtHeading(tree, i, content, post);
    TrimDefinitionsIs(content, []);
    assert content + [] == content;
  }

  /** The trimmed nodes of a section followed only by definitions are its content. */
  lemma SectionBeforeEnd(tree: seq<Node>, i: nat, content: seq<Node>, post: seq<Node>)
    requires i < |tree| && tree[i + 1..] == content + post
    requires forall n | n in content :: !(n.Heading? && n.depth <= 2)
    requires content == [] || !content[|content| - 1].Definition?
    requires forall n | n in post :: n.Definition?
    ensures TrimDefinitions(tree[i + 1..SectionEnd(tree, i + 1, 2)]) == content
  {
    SectionEndsAtEnd(tree, i, content, post);
    assert tree[i + 1..|tree|] == content + post;
    TrimDefinitionsIs(content, post);
  }

  /** A section followed by a heading at most as deep ends there. */
  lemma SectionEndsAtHeading(tree: seq<Node>, i: nat, content: seq<Node>, post: seq<Node>)
    requires i < |tree| && tree[i + 1..] == content + post
    requires forall n | n in content :: !(n.Heading? && n.depth <= 2)
    requires post != [] && post[0].Heading? && post[0].depth <= 2
    ensures SectionEnd(tree, i + 1, 2) == i + 1 + |content|
    ensures tree[i + 1..i + 1 + |content|] == content
  {
    var rest := tree[i + 1..];
    var j := i + 1 + |content|;
    assert tree[j] == rest[|content|];
    forall k | i + 1 <= k < j ensures !(tree[k].Heading? && tree[k].depth <= 2) {
      assert tree[k] == rest[k - i - 1] == content[k - i - 1];
    }
    SectionEndIs(tree, i + 1, 2, j);
    assert rest[..|content|] == content;
  }

  /** A section followed only by definitions runs to the end. */
  lemma SectionEndsAtEnd(tree: seq<Node>, i: nat, content: seq<Node>, post: seq<Node>)
    requires i < |tree| && tree[i + 1..] == content + post
    requires forall n | n in content :: !(n.Heading? && n.depth <= 2)
    requires forall n | n in post :: n.Definition?
    ensures SectionEnd(tree, i + 1, 2) == |tree|
  {
    var rest := tree[i + 1..];
    forall k | i + 1 <= k < |tree| ensures !(tree[k].Heading? && tree[k].depth <= 2) {
      assert tree[k] == rest[k - i - 1];
      assert rest[k - i - 1] in content || rest[k - i - 1] in post;
    }
    SectionEndIs(tree, i + 1, 2, |tree|);
  }

  /** A level-2 section found in `pre + ([heading] + content) + post`. */
  lemma SectionFound(pre: seq<Node>, title: string, content: seq<Node>, post: seq<Node>)
    requires forall n | n in pre :: !IsSectionHeading(n, title)
    requires forall n | n in content :: !(n.Heading? && n.depth <= 2)
    requires content == [] || !content[|content| - 1].Definition?
    requires (post != [] && post[0].Heading? && post[0].depth <= 2) || forall n | n in post :: n.Definition?
    ensures SectionNodes(pre + ([Heading(2, [Text(title)])] + content) + post, title) == Some(content)
    ensures Occurs(pre + ([Heading(2, [Text(title)])] + content) + post, HeadingWith(2, title))
  {
    var heading := Heading(2, [Text(title)]);
    var tree := pre + ([heading] + content) + post;
    SectionSlices(pre, heading, content, post);
    forall k | 0 <= k < |pre| ensures !IsSectionHeading(tree[k], title) {
      assert tree[k] in pre;
    }
    SectionAt(tree, title, |pre|, content, post);
    HeadingOccurs(pre, title, content, post);
  }

  /** The heading of a section occurs in the tree that holds it. */
  lemma HeadingOccurs(pre: seq<Node>, title: string, content: seq<Node>, post: seq<Node>)
    ensures Occurs(pre + ([Heading(2, [Text(title)])] + content) + post, HeadingWith(2, title))
  {
    var heading := Heading(2, [Text(title)]);
    var tree := pre + ([heading] + content) + post;
    assert tree[|pre|] == heading;
    assert Text(title) in heading.children;
    assert Matches(tree[|pre|], HeadingWith(2, title));
  }

  lemma SectionSlices(pre: seq<Node>, heading: Node, content: seq<Node>, post: seq<Node>)
    ensures var tree := pre + ([heading] + content) + post;
      && |pre| < |tree| && tree[|pre|] == heading
      && (forall k | 0 <= k < |pre| :: tree[k] == pre[k])
      && tree[|pre| + 1..] == content + post
  {
  }

  /** Every badge definition is a definition node. */
  lemma {:induction false} DefinitionsOnly(o: Entries<Badge>)
    ensures forall n | n in BadgeDefinitions(o) :: n.Definition?
    decreases |o|
  {
    if o != [] {
      DefinitionsOnly(o[1..]);
    }
  }

  /** The headings that open the three sections, and the one that opens the README. */
  predicate NotSectionTitle(name: string) {
    name != TocTitle && name != UsageTitle && name != ContributingTitle
  }

  /** A section is its heading followed by its content. */
  lemma SectionShape(title: string, zone: seq<Node>, text: Option<string>)
    ensures Section(title, zone, text) == [Heading(2, [Text(title)])] + (zone + SectionText(text))
  {
    Assoc([Heading(2, [Text(title)])], zone, SectionText(text));
  }

  /** The six parts of a rendered README, in order. */
  lemma RenderParts(req: ReadmeRequest)
    ensures Render(req) ==
      Top(req) + Zone(Status, req.badges.status)
      + Section(TocTitle, [], Toc(req.documentation))
      + Section(UsageTitle, Zone(Consumer, req.badges.consumer), Usage(req.documentation))
      + Section(ContributingTitle, Zone(Contribution, req.badges.contribution), Contributing(req.documentation))
      + Definitions(req.badges)
  {
  }

  lemma Regroup(a: seq<Node>, b: seq<Node>, c: seq<Node>, d: seq<Node>, e: seq<Node>, f: seq<Node>)
    ensures a + b + c + d + e + f == (a + b) + c + (d + e + f)
    ensures a + b + c + d + e + f == (a + b + c) + d + (e + f)
  {
    Assoc(a + b, c, d);
    Assoc(a + b, c + d, e);
    Assoc(a + b, c + d + e, f);
    Assoc(a + b + c + d, e, f);
  }

  /** No node of a zone is a heading. */
  lemma ZoneHasNoHeading(g: GroupName, o: Entries<Badge>)
    ensures forall n | n in Zone(g, o) :: !n.Heading?
  {
  }

  /** Before the sections come the title and the status zone; the title is no section's heading unless the project is named like one. */
  lemma PreambleHeadings(req: ReadmeRequest, title: string)
    requires title != req.projectName
    ensures forall n | n in Top(req) + Zone(Status, req.badges.status) :: !IsSectionHeading(n, title)
  {
    ZoneHasNoHeading(Status, req.badges.status);
  }

  /** A section opens with its own heading only. */
  lemma SectionHeadings(title: string, other: string, zone: seq<Node>, text: Option<string>)
    requires title != other
    requires forall n | n in zone :: !n.Heading?
    ensures forall n | n in Section(other, zone, text) :: !IsSectionHeading(n, title)
  {
  }

  /** The Table of Contents section of a rendered README: its text, up to the Usage heading. */
  lemma TocSplit(req: ReadmeRequest) returns (pre: seq<Node>, post: seq<Node>)
    requires NotSectionTitle(req.projectName)
    ensures Render(req) == pre + ([Heading(2, [Text(TocTitle)])] + SectionText(Toc(req.documentation))) + post
    ensures forall n | n in pre :: !IsSectionHeading(n, TocTitle)
    ensures post != [] && post[0] == Heading(2, [Text(UsageTitle)])
  {
    var top, status, defs := Top(req), Zone(Status, req.badges.status), Definitions(req.badges);
    var toc := Section(TocTitle, [], Toc(req.documentation));
    var usage := Section(UsageTitle, Zone(Consumer, req.badges.consumer), Usage(req.documentation));
    var contributing := Section(ContributingTitle, Zone(Contribution, req.badges.contribution), Contributing(req.documentation));
    RenderParts(req);
    Regroup(top, status, toc, usage, contributing, defs);
    SectionShape(TocTitle, [], Toc(req.documentation));
    assert [] + SectionText(Toc(req.documentation)) == SectionText(Toc(req.documentation));
    PreambleHeadings(req, TocTitle);
    pre, post := top + status, usage + contributing + defs;
  }

  /** The Usage section of a rendered README: the consumer zone and its text, up to the Contributing heading. */
  lemma UsageSplit(req: ReadmeRequest) returns (pre: seq<Node>, post: seq<Node>)
    requires NotSectionTitle(req.projectName)
    ensures Render(req) == pre + ([Heading(2, [Text(UsageTitle)])] + (Zone(Consumer, req.badges.consumer) + SectionText(Usage(req.documentation)))) + post
    ensures forall n | n in pre :: !IsSectionHeading(n, UsageTitle)
    ensures post != [] && post[0] == Heading(2, [Text(ContributingTitle)])
  {
    var top, status, defs := Top(req), Zone(Status, req.badges.status), Definitions(req.badges);
    var toc := Section(TocTitle, [], Toc(req.documentation));
    var usage := Section(UsageTitle, Zone(Consumer, req.badges.consumer), Usage(req.documentation));
    var contributing := Section(ContributingTitle, Zone(Contribution, req.badges.contribution), Contributing(req.documentation));
    RenderParts(req);
    Regroup(top, status, toc, usage, contributing, defs);
    SectionShape(UsageTitle, Zone(Consumer, req.badges.consumer), Usage(req.documentation));
    PreambleHeadings(req, UsageTitle);
    SectionHeadings(UsageTitle, TocTitle, [], Toc(req.documentation));
    pre, post := top + status + toc, contributing + defs;
  }

  /** The Contributing section of a rendered README: the contribution zone and its text; the definitions follow. */
  lemma ContributingSplit(req: ReadmeRequest) returns (pre: seq<Node>, post: seq<Node>)
    requires NotSectionTitle(req.projectName)
    ensures Render(req) == pre + ([Heading(2, [Text(ContributingTitle)])] + (Zone(Contribution, req.badges.contribution) + SectionText(Contributing(req.documentation)))) + post
    ensures forall n | n in pre :: !IsSectionHeading(n, ContributingTitle)
    ensures forall n | n in post :: n.Definition?
  {
    var top, status, defs := Top(req), Zone(Status, req.badges.status), Definitions(req.badges);
    var toc := Section(TocTitle, [], Toc(req.documentation));
    var usage := Section(UsageTitle, Zone(Consumer, req.badges.consumer), Usage(req.documentation));
    RenderParts(req);
    SectionShape(ContributingTitle, Zone(Contribution, req.badges.contribution), Contributing(req.documentation));
    PreambleHeadings(req, ContributingTitle);
    SectionHeadings(ContributingTitle, TocTitle, [], Toc(req.documentation));
    ZoneHasNoHeading(Consumer, req.badges.consumer);
    SectionHeadings(ContributingTitle, UsageTitle, Zone(Consumer, req.badges.consumer), Usage(req.documentation));
    DefinitionsOnly(req.badges.status);
    DefinitionsOnly(req.badges.consumer);
    DefinitionsOnly(req.badges.contribution);
    pre, post := top + status + toc + usage, defs;
  }

  /** What a badge section holds: its zone, then its text; no heading, and no definition last. */
  lemma ZonedSectionShape(g: GroupName, o: Entries<Badge>, text: Option<string>)
    ensures forall n | n in Zone(g, o) + SectionText(text) :: !(n.Heading? && n.depth <= 2)
    ensures !(Zone(g, o) + SectionText(text))[|Zone(g, o) + SectionText(text)| - 1].Definition?
  {
    ZoneHasNoHeading(g, o);
  }

  /** The badges of a badge section's zone are its group's badge nodes. */
  lemma ZonedSectionBadges(g: GroupName, o: Entries<Badge>, text: Option<string>)
    ensures ZoneBadges(Zone(g, o) + SectionText(text), GroupKey(g)) == Some(BadgeNodes(o))
  {
    ZoneContentBadges(o);
    ZoneFound([], ZoneContent(o), SectionText(text), ZoneName(g));
    assert [] + Zone(g, o) == Zone(g, o);
  }

  /** The text of a badge section is one of its paragraphs. */
  lemma ZonedSectionText(g: GroupName, o: Entries<Badge>, text: Option<string>)
    requires text.Some?
    ensures Occurs(Zone(g, o) + SectionText(text), TextParagraph(text.value))
  {
    var nodes := Zone(g, o) + SectionText(text);
    assert nodes[|Zone(g, o)|] == Paragraph([Text(text.value)]);
    assert Matches(nodes[|Zone(g, o)|], TextParagraph(text.value));
  }

  /** The text of the Table of Contents section, when there is one. */
  lemma TextSectionContent(text: Option<string>)
    ensures forall n | n in SectionText(text) :: !(n.Heading? && n.depth <= 2)
    ensures SectionText(text) == [] || !SectionText(text)[|SectionText(text)| - 1].Definition?
    ensures text.Some? ==> Occurs(SectionText(text), TextParagraph(text.value))
  {
    if text.Some? {
      assert Matches(SectionText(text)[0], TextParagraph(text.value));
    }
  }

  /** `headingRange` finds the Table of Contents of a rendered README and gives its text. */
  lemma TocRendered(req: ReadmeRequest)
    requires NotSectionTitle(req.projectName)
    ensures SectionNodes(Render(req), TocTitle) == Some(SectionText(Toc(req.documentation)))
    ensures Occurs(Render(req), HeadingWith(2, TocTitle))
  {
    var pre, post := TocSplit(req);
    TextSectionContent(Toc(req.documentation));
    SectionFound(pre, TocTitle, SectionText(Toc(req.documentation)), post);
  }

  /** `headingRange` finds the Usage section of a rendered README and gives its zone and text. */
  lemma UsageRendered(req: ReadmeRequest)
    requires NotSectionTitle(req.projectName)
    ensures SectionNodes(Render(req), UsageTitle) == Some(Zone(Consumer, req.badges.consumer) + SectionText(Usage(req.documentation)))
    ensures Occurs(Render(req), HeadingWith(2, UsageTitle))
  {
    var pre, post := UsageSplit(req);
    ZonedSectionShape(Consumer, req.badges.consumer, Usage(req.documentation));
    SectionFound(pre, UsageTitle, Zone(Consumer, req.badges.consumer) + SectionText(Usage(req.documentation)), post);
  }

  /** `headingRange` finds the Contributing section of a rendered README and, ignoring the final definitions, gives its zone and text. */
  lemma ContributingRendered(req: ReadmeRequest)
    requires NotSectionTitle(req.projectName)
    ensures SectionNodes(Render(req), ContributingTitle) ==
      Some(Zone(Contribution, req.badges.contribution) + SectionText(Contributing(req.documentation)))
    ensures Occurs(Render(req), HeadingWith(2, ContributingTitle))
  {
    var pre, post := ContributingSplit(req);
    ZonedSectionShape(Contribution, req.badges.contribution, Contributing(req.documentation));
    SectionFound(pre, ContributingTitle, Zone(Contribution, req.badges.contribution) + SectionText(Contributing(req.documentation)), post);
  }

  /** `assertSectionContentIsCorrect` on a section made of a badge zone and a text. */
  lemma ZonedSectionChecked(
    tree: seq<Node>, title: string, g: GroupName, o: Entries<Badge>, text: Option<string>,
    resultingBadges: Option<LanguageBadges>, references: Object<string>)
    requires SectionNodes(tree, title) == Some(Zone(g, o) + SectionText(text))
    requires text.Some?
    requires resultingBadges.Some? && resultingBadges.value.Group(g).Some?
    requires ResultingBadgesInGroup(resultingBadges.value.Group(g).value, Keyed(BadgeNodes(o)), references)
    ensures SectionContentIsCorrect(tree, title, resultingBadges, references, text, Some(g))
  {
    ZonedSectionBadges(g, o, text);
    ZonedSectionText(g, o, text);
  }

  /** The language's badges of group `g` pass `assertResultingBadgesInBadgeGroup` against the keyed nodes of `g`'s zone. */
  lemma LanguageZoneShown(req: ReadmeRequest, language: LanguageResult, license: LicenseResult, visibility: string, g: GroupName)
    requires req.badges == ReadmeBadges(Some(language), license, visibility)
    requires language.badges.Some? && language.badges.value.Group(g).Some?
    requires Disjoint(req.badges)
    requires license.badges.Some? ==> !HasKey(LanguageGroup(Some(language), Consumer), LicenseKey)
    requires visibility == "Public" ==> !HasKey(LanguageGroup(Some(language), Contribution), PrsKey)
    ensures ResultingBadgesInGroup(language.badges.value.Group(g).value, Keyed(BadgeNodes(req.badges.Group(g))), References(Render(req)))
  {
    LanguageShown(req, language, license, visibility, g);
    GroupsRendered(req, g);
  }

  /**
   * 'the language content is included in the README' holds for the README of
   * the scaffolded request, when the language gives all three documentation
   * texts and consumer and contribution badges, no badge key is in two
   * groups, no fixed badge overrides one of the language's, and the project
   * is not named like a section.
   */
  lemma LanguageContentRendered(req: ReadmeRequest, language: LanguageResult, license: LicenseResult, visibility: string)
    requires req.badges == ReadmeBadges(Some(language), license, visibility)
    requires req.documentation == ReadmeDocumentation(Some(language))
    requires Toc(language.documentation).Some? && Usage(language.documentation).Some? && Contributing(language.documentation).Some?
    requires language.badges.Some?
    requires language.badges.value.consumer.Some? && language.badges.value.contribution.Some?
    requires Disjoint(req.badges)
    requires license.badges.Some? ==> !HasKey(LanguageGroup(Some(language), Consumer), LicenseKey)
    requires visibility == "Public" ==> !HasKey(LanguageGroup(Some(language), Contribution), PrsKey)
    requires NotSectionTitle(req.projectName)
    ensures LanguageContentIncluded(Render(req), language)
  {
    TocSectionRendered(req, language);
    BadgeSectionsRendered(req, language, license, visibility);
    ContentFromSections(Render(req), language);
  }

  /** The Usage and the Contributing checks together. */
  lemma BadgeSectionsRendered(req: ReadmeRequest, language: LanguageResult, license: LicenseResult, visibility: string)
    requires req.badges == ReadmeBadges(Some(language), license, visibility)
    requires req.documentation == ReadmeDocumentation(Some(language))
    requires Usage(language.documentation).Some? && Contributing(language.documentation).Some?
    requires language.badges.Some?
    requires language.badges.value.consumer.Some? && language.badges.value.contribution.Some?
    requires Disjoint(req.badges)
    requires license.badges.Some? ==> !HasKey(LanguageGroup(Some(language), Consumer), LicenseKey)
    requires visibility == "Public" ==> !HasKey(LanguageGroup(Some(language), Contribution), PrsKey)
    requires NotSectionTitle(req.projectName)
    ensures SectionExists(Render(req), SectionTitle(Consumer), language.badges, References(Render(req)),
      SectionTextOf(Consumer, language.documentation), Some(Consumer))
    ensures SectionExists(Render(req), SectionTitle(Contribution), language.badges, References(Render(req)),
      SectionTextOf(Contribution, language.documentation), Some(Contribution))
  {
    assert language.badges.value.Group(Consumer).Some? && language.badges.value.Group(Contribution).Some?;
    BadgeSectionRendered(req, language, license, visibility, Consumer);
    BadgeSectionRendered(req, language, license, visibility, Contribution);
  }

  /** The three section checks make up 'the language content is included in the README'. */
  lemma ContentFromSections(tree: seq<Node>, language: LanguageResult)
    requires SectionExists(tree, TocTitle, language.badges, References(tree), Toc(language.documentation), None)
    requires SectionExists(tree, SectionTitle(Consumer), language.badges, References(tree),
      SectionTextOf(Consumer, language.documentation), Some(Consumer))
    requires SectionExists(tree, SectionTitle(Contribution), language.badges, References(tree),
      SectionTextOf(Contribution, language.documentation), Some(Contribution))
    ensures LanguageContentIncluded(tree, language)
  {
  }

  /** The Table of Contents check of 'the language content is included in the README'. */
  lemma TocSectionRendered(req: ReadmeRequest, language: LanguageResult)
    requires req.documentation == ReadmeDocumentation(Some(language))
    requires Toc(language.documentation).Some?
    requires NotSectionTitle(req.projectName)
    ensures SectionExists(Render(req), TocTitle, language.badges, References(Render(req)), Toc(language.documentation), None)
  {
    TocRendered(req);
    TextSectionContent(Toc(req.documentation));
  }

  /** The title and the documentation text of the section that shows group `g`. */
  function SectionTitle(g: GroupName): string {
    match g
    case Status => TocTitle
    case Consumer => UsageTitle
    case Contribution => ContributingTitle
  }

  function SectionTextOf(g: GroupName, d: Option<Documentation>): Option<string> {
    match g
    case Status => Toc(d)
    case Consumer => Usage(d)
    case Contribution => Contributing(d)
  }

  /** The Usage and Contributing checks of 'the language content is included in the README'. */
  lemma BadgeSectionRendered(req: ReadmeRequest, language: LanguageResult, license: LicenseResult, visibility: string, g: GroupName)
    requires g != Status
    requires req.badges == ReadmeBadges(Some(language), license, visibility)
    requires req.documentation == ReadmeDocumentation(Some(language))
    requires SectionTextOf(g, language.documentation).Some?
    requires language.badges.Some? && language.badges.value.Group(g).Some?
    requires Disjoint(req.badges)
    requires license.badges.Some? ==> !HasKey(LanguageGroup(Some(language), Consumer), LicenseKey)
    requires visibility == "Public" ==> !HasKey(LanguageGroup(Some(language), Contribution), PrsKey)
    requires NotSectionTitle(req.projectName)
    ensures SectionExists(Render(req), SectionTitle(g), language.badges, References(Render(req)),
      SectionTextOf(g, language.documentation), Some(g))
  {
    LanguageZoneShown(req, language, license, visibility, g);
    if g == Consumer {
      UsageRendered(req);
    } else {
      ContributingRendered(req);
    }
    ZonedSectionChecked(Render(req), SectionTitle(g), g, req.badges.Group(g), SectionTextOf(g, req.documentation),
      language.badges, References(Render(req)));
  }
}
