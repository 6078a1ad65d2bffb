/** The `SourcesSidebar` component: a table of contents whose entry for the section in view is
    highlighted, and a legend of source types with one information popover per type. */
module SourcesSidebar {
  import opened Wrappers
  import opened Database
  import SourceCardView
  import SourceCategorySection

  // ---------------------------------------------------------------------------
  // The source type legend
  // ---------------------------------------------------------------------------

  /** How far a type of source can be trusted, from most to least. */
  datatype Trust = Highest | High | Moderate | Varies

  function TrustRank(t: Trust): nat {
    match t
    case Highest => 3
    case High => 2
    case Moderate => 1
    case Varies => 0
  }

  function TrustText(t: Trust): string {
    match t
    case Highest => "Highest"
    case High => "High"
    case Moderate => "Moderate"
    case Varies => "Varies"
  }

  /** The colour of the trust level: exactly one of the four conditional classes applies. */
  function TrustClass(t: Trust): string {
    match t
    case Highest => "text-green-600 dark:text-green-400"
    case High => "text-blue-600 dark:text-blue-400"
    case Moderate => "text-orange-600 dark:text-orange-400"
    case Varies => "text-gray-600 dark:text-gray-400"
  }

  datatype TypeInfo = TypeInfo(name: string, className: string, trust: Trust, description: string, examples: string)

  /** The legend's trust column. */
  function TypeTrust(t: SourceType): (trust: Trust)
    ensures t == PeerReviewed <==> trust == Highest
    ensures t == Agency || t == Legal <==> trust == High
    ensures t == Advocacy || t == News <==> trust == Moderate
    ensures t == Other <==> trust == Varies
  {
    match t
    case PeerReviewed => Highest
    case Agency => High
    case Legal => High
    case Advocacy => Moderate
    case News => Moderate
    case Other => Varies
  }

  function TypeName(t: SourceType): string {
    match t
    case PeerReviewed => "Peer-Reviewed"
    case Agency => "Agency"
    case Legal => "Legal"
    case Advocacy => "Advocacy"
    case News => "News"
    case Other => "Other"
  }

  function TypeClass(t: SourceType): string {
    match t
    case PeerReviewed => "bg-green-50 text-green-700 border-green-500 dark:bg-green-900/20 dark:text-green-400"
    case Agency => "bg-blue-50 text-blue-700 border-blue-500 dark:bg-blue-900/20 dark:text-blue-400"
    case Legal => "bg-slate-50 text-slate-700 border-slate-500 dark:bg-slate-900/20 dark:text-slate-400"
    case Advocacy => "bg-purple-50 text-purple-700 border-purple-500 dark:bg-purple-900/20 dark:text-purple-400"
    case News => "bg-orange-50 text-orange-700 border-orange-500 dark:bg-orange-900/20 dark:text-orange-400"
    case Other => "bg-gray-50 text-gray-700 border-gray-500 dark:bg-gray-900/20 dark:text-gray-400"
  }

  function TypeDescription(t: SourceType): string {
    match t
    case PeerReviewed => "Academic research published in scientific journals after rigorous peer review by experts in the field."
    case Agency => "Official reports and data from government agencies with regulatory oversight and technical expertise."
    case Legal => "Court documents, legal opinions, and regulatory decisions with evidentiary standards."
    case Advocacy => "Position papers and analysis from advocacy organizations. May contain valuable research but with stated positions."
    case News => "Journalistic reporting and news coverage. Quality varies by publication standards."
    case Other => "Miscellaneous sources that don't fit other categories. Evaluate individually."
  }

  function TypeExamples(t: SourceType): string {
    match t
    case PeerReviewed => "Scientific studies, research papers, academic publications"
    case Agency => "USFWS, SJRWMD, Marine Mammal Commission, EPA"
    case Legal => "Court rulings, legal briefs, regulatory determinations"
    case Advocacy => "Environmental groups, policy organizations, advocacy coalitions"
    case News => "Newspapers, news websites, investigative journalism"
    case Other => "Educational materials, historical documents, miscellaneous sources"
  }

  /** The legend's table, one row per type. */
  function SourceTypeInfo(t: SourceType): (info: TypeInfo)
    ensures info.trust == TypeTrust(t) && info.name == TypeName(t)
  {
    TypeInfo(TypeName(t), TypeClass(t), TypeTrust(t), TypeDescription(t), TypeExamples(t))
  }

  /** `Object.entries(sourceTypeInfo)`: the table's keys in the order they are written. */
  const LegendOrder: seq<SourceType> := [PeerReviewed, Agency, Legal, Advocacy, News, Other]

  /** The legend lists every type exactly once, from the most trusted to the least. */
  lemma LegendCoversTypesByTrust()
    ensures forall t: SourceType :: t in LegendOrder
    ensures forall i, j :: 0 <= i < j < |LegendOrder| ==> LegendOrder[i] != LegendOrder[j]
    ensures forall i, j :: 0 <= i < j < |LegendOrder| ==>
              TrustRank(TypeTrust(LegendOrder[i])) >= TrustRank(TypeTrust(LegendOrder[j]))
  {
    forall t: SourceType ensures t in LegendOrder {
      match t
      case PeerReviewed => assert LegendOrder[0] == t;
      case Agency => assert LegendOrder[1] == t;
      case Legal => assert LegendOrder[2] == t;
      case Advocacy => assert LegendOrder[3] == t;
      case News => assert LegendOrder[4] == t;
      case Other => assert LegendOrder[5] == t;
    }
  }

  /** The legend names each type as the source cards' badges do. */
  lemma LegendNamesMatchBadges(t: SourceType)
    ensures SourceTypeInfo(t).name == SourceCardView.BadgeLabel(t)
  {
    match t
    case PeerReviewed =>
    case Agency =>
    case Legal =>
    case Advocacy =>
    case News =>
    case Other =>
  }

  /** The popover trigger's accessible name. */
  function TriggerLabel(t: SourceType): (text: string)
    ensures text == "View " + SourceTypeInfo(t).name + " information"
  {
    "View " + SourceTypeInfo(t).name + " information"
  }

  /** Each trigger names its own type: different types give different accessible names. */
  lemma TriggerLabelsDistinct(t: SourceType, u: SourceType)
    ensures TriggerLabel(t) == TriggerLabel(u) ==> t == u
  {
    if TriggerLabel(t) == TriggerLabel(u) {
      FramedNamesEqual(SourceTypeInfo(t).name, SourceTypeInfo(u).name);
      LegendNamesMatchBadges(t);
      LegendNamesMatchBadges(u);
      SourceCardView.BadgeLabelRoundTrip(t);
      SourceCardView.BadgeLabelRoundTrip(u);
    }
  }

  /** The same prefix and suffix around two names give the same string only for the same name. */
  lemma FramedNamesEqual(a: string, b: string)
    requires "View " + a + " information" == "View " + b + " information"
    ensures a == b
  {
    var s := "View " + a + " information";
    assert |a| == |b|;
    assert a == s[5..5 + |a|];
  }

  // ---------------------------------------------------------------------------
  // The table of contents
  // ---------------------------------------------------------------------------

  /** `document.getElementById('category-' + slug)` found an element: the ids present on the page. */
  type Dom = set<string>

  /** `scrollToSection(slug)`: the element scrolled into view, or nothing when it is missing. */
  function ScrollTarget(slug: string, dom: Dom): (target: Option<string>)
    ensures target.Some? <==> SourceCategorySection.SectionId(slug) in dom
    ensures target.Some? ==> target.value == SourceCategorySection.SectionId(slug)
  {
    var id := SourceCategorySection.SectionId(slug);
    if id in dom then Some(id) else None
  }

  /** The sections the effect hands to the observer: the categories' section ids that exist. */
  function ObservedSections(categories: seq<SourceCategory>, dom: Dom): (ids: set<string>)
    ensures forall id :: id in ids <==> id in dom && exists c :: c in categories && id == SourceCategorySection.SectionId(c.slug)
  {
    set c | c in categories && SourceCategorySection.SectionId(c.slug) in dom :: SourceCategorySection.SectionId(c.slug)
  }

  /** A table-of-contents button: the category's name, highlighted when its section is active. */
  datatype NavItem = NavItem(name: string, slug: string, active: bool)

  function NavItems(categories: seq<SourceCategory>, activeSection: Option<string>): (items: seq<NavItem>)
    ensures |items| == |categories|
    ensures forall k :: 0 <= k < |categories| ==>
              items[k].name == categories[k].name && items[k].slug == categories[k].slug
    ensures forall k :: 0 <= k < |categories| ==>
              (items[k].active <==> activeSection == Some(SourceCategorySection.SectionId(categories[k].slug)))
  {
    seq(|categories|, k requires 0 <= k < |categories| =>
      NavItem(categories[k].name, categories[k].slug,
              activeSection == Some(SourceCategorySection.SectionId(categories[k].slug))))
  }

  /** With distinct category slugs, at most one entry of the table of contents is highlighted. */
  lemma AtMostOneHighlighted(categories: seq<SourceCategory>, activeSection: Option<string>, i: nat, j: nat)
    requires forall a, b :: 0 <= a < b < |categories| ==> categories[a].slug != categories[b].slug
    requires i < |categories| && j < |categories|
    requires NavItems(categories, activeSection)[i].active && NavItems(categories, activeSection)[j].active
    ensures i == j
  {
    SourceCategorySection.SectionIdInjective(categories[i].slug, categories[j].slug);
  }

  // ---------------------------------------------------------------------------
  // The sidebar's state
  // ---------------------------------------------------------------------------

  /** What the observer reports about one observed section. */
  datatype IntersectionEntry = IntersectionEntry(targetId: string, isIntersecting: bool)

  /** The id of the last intersecting entry, or `current` when no entry intersects. */
  function LastIntersecting(entries: seq<IntersectionEntry>, current: Option<string>): (r: Option<string>)
    ensures r == current || exists e :: e in entries && e.isIntersecting && r == Some(e.targetId)
    ensures (forall e :: e in entries ==> !e.isIntersecting) ==> r == current
    ensures forall k :: 0 <= k < |entries| && entries[k].isIntersecting
              && (forall j :: k < j < |entries| ==> !entries[j].isIntersecting)
              ==> r == Some(entries[k].targetId)
    decreases |entries|
  {
    if entries == [] then current
    else
      var last := entries[|entries| - 1];
      var before := entries[..|entries| - 1];
      assert forall e :: e in before ==> e in entries;
      if last.isIntersecting then Some(last.targetId) else LastIntersecting(before, current)
  }

  /** One more entry: it wins when it intersects, and otherwise the earlier ones decide. */
  lemma LastIntersectingStep(entries: seq<IntersectionEntry>, i: int, current: Option<string>)
    requires 0 <= i < |entries|
    ensures LastIntersecting(entries[..i + 1], current)
            == if entries[i].isIntersecting then Some(entries[i].targetId) else LastIntersecting(entries[..i], current)
  {
    assert entries[..i + 1][..i] == entries[..i];
    assert entries[..i + 1][i] == entries[i];
  }

  class Sidebar {
    const categories: seq<SourceCategory>
    /** The section id in view; null until the observer reports one. */
    var activeSection: Option<string>
    /** The type whose information popover is open. */
    var openPopover: Option<SourceType>

    constructor (categories: seq<SourceCategory>)
      ensures this.categories == categories && activeSection.None? && openPopover.None?
    {
      this.categories := categories;
      activeSection := None;
      openPopover := None;
    }

    predicate PopoverShown(t: SourceType)
      reads this
    {
      openPopover == Some(t)
    }

    function Nav(): seq<NavItem>
      reads this
    {
      NavItems(categories, activeSection)
    }

    /** Hovering over a trigger opens its popover. */
    method OnMouseEnter(t: SourceType)
      modifies this
      ensures openPopover == Some(t) && activeSection == old(activeSection)
    {
      openPopover := Some(t);
    }

    /** Focusing a trigger opens its popover. */
    method OnFocus(t: SourceType)
      modifies this
      ensures openPopover == Some(t) && activeSection == old(activeSection)
    {
      openPopover := Some(t);
    }

    /** The popover of `t` asks to open or close: opening shows it; closing hides it only if it
        is the one shown, so another popover opened meanwhile stays open. */
    method OnOpenChange(t: SourceType, open: bool)
      modifies this
      ensures open ==> openPopover == Some(t)
      ensures !open && old(openPopover) == Some(t) ==> openPopover.None?
      ensures !open && old(openPopover) != Some(t) ==> openPopover == old(openPopover)
      ensures activeSection == old(activeSection)
    {
      if open {
        openPopover := Some(t);
      } else if openPopover == Some(t) {
        openPopover := None;
      }
    }

    /** The mobile close button inside a popover. */
    method OnClose()
      modifies this
      ensures openPopover.None? && activeSection == old(activeSection)
    {
      openPopover := None;
    }

    /** The observer's callback: each intersecting entry in turn becomes the active section. */
    method OnIntersection(entries: seq<IntersectionEntry>)
      modifies this
      ensures activeSection == LastIntersecting(entries, old(activeSection))
      ensures openPopover == old(openPopover)
    {
      for i := 0 to |entries|
        invariant activeSection == LastIntersecting(entries[..i], old(activeSection))
        invariant openPopover == old(openPopover)
      {
        LastIntersectingStep(entries, i, old(activeSection));
        if entries[i].isIntersecting {
          activeSection := Some(entries[i].targetId);
        }
      }
      assert entries[..|entries|] == entries;
    }
  }

  /** At most one popover is shown at any time. */
  lemma OnePopoverAtATime(s: Sidebar, t: SourceType, u: SourceType)
    requires s.PopoverShown(t) && s.PopoverShown(u)
    ensures t == u
  {
  }

  /** When the observer reports only observed sections, the active section stays one of them,
      so the highlighted entry always names a section on the page. */
  lemma ActiveSectionIsObserved(entries: seq<IntersectionEntry>, current: Option<string>, observed: set<string>)
    requires current.None? || current.value in observed
    requires forall e :: e in entries ==> e.targetId in observed
    ensures var r := LastIntersecting(entries, current); r.None? || r.value in observed
  {
  }

  /** Whatever the state, a close request from a popover other than the open one leaves the open
      popover open. */
  method CloseOfOtherKeepsOpen(s: Sidebar, t: SourceType, u: SourceType)
    requires t != u && s.PopoverShown(t)
    modifies s
    ensures s.PopoverShown(t) && s.activeSection == old(s.activeSection)
  {
    s.OnOpenChange(u, false);
  }
}
