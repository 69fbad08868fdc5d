/** An entry of the sidebar (src/ui/widgets/stack_sidebar_item.rs): its name, detail and
    subtitle labels, the usage with its progress bar and small graph, and the two numbers it
    is sorted by. */
module SidebarItem {
  import Graph

  /** `gtk::Ordering`. */
  datatype Ordering = Smaller | Equal | Larger

  /** `ord`: by the primary number, and by the secondary one only on a tie. */
  function Ord(primary: nat, secondary: nat, otherPrimary: nat, otherSecondary: nat): (r: Ordering)
    ensures r == Equal <==> primary == otherPrimary && secondary == otherSecondary
    ensures r == Larger <==> primary > otherPrimary || (primary == otherPrimary && secondary > otherSecondary)
  {
    if primary > otherPrimary then Larger
    else if primary < otherPrimary then Smaller
    else if secondary > otherSecondary then Larger
    else if secondary < otherSecondary then Smaller
    else Equal
  }

  /** `ord` is the lexicographic order on (primary, secondary): equal exactly when both
      numbers are, larger exactly when the other way round is smaller. */
  lemma OrdIsLexicographic(p: nat, s: nat, q: nat, t: nat)
    ensures Ord(p, s, q, t) == Equal <==> p == q && s == t
    ensures Ord(p, s, q, t) == Larger <==> Ord(q, t, p, s) == Smaller
    ensures Ord(p, s, q, t) == Larger <==> p > q || (p == q && s > t)
  {
  }

  /** `ord` is transitive. */
  lemma OrdTransitive(p: nat, s: nat, q: nat, t: nat, u: nat, v: nat)
    requires Ord(p, s, q, t) == Larger && Ord(q, t, u, v) == Larger
    ensures Ord(p, s, u, v) == Larger
  {
  }

  /** A text property whose setter skips an unchanged value, as `set_name` does: the
      stored value and the label shown, after setting `next`. */
  function SetText(stored: string, display: string, next: string): (r: (string, string))
    ensures r.0 == next
    ensures r.1 == next || stored == next
  {
    if stored == next then (stored, display) else (next, next)
  }

  /** `set_subtitle` and `set_detail` as written: the stored value is taken out of its cell
      and only put back when unchanged, so a new value leaves the cell empty. */
  function SetTextAsWritten(stored: string, display: string, next: string): (r: (string, string))
    ensures r.0 == next <==> stored == next || next == ""
    ensures r.1 == next || stored == next
  {
    if stored == next then (stored, display) else ("", next)
  }

  /** With the setter of `set_name`, the getter gives back what was set, and the label shows
      it. */
  lemma SetTextRoundTrip(stored: string, display: string, next: string)
    requires stored == display
    ensures SetText(stored, display, next).0 == next && SetText(stored, display, next).1 == next
  {
  }

  /** As written, setting the subtitle "50%" over "10%" leaves the getter returning "" while
      the label shows "50%". */
  lemma SetTextAsWrittenLosesValue()
    ensures SetTextAsWritten("10%", "10%", "50%") == ("", "50%")
    ensures SetTextAsWritten("10%", "10%", "50%").0 != "50%"
  {
  }

  /** The progress bar's fraction: the usage over the highest shown sample, at least 1. */
  function Fraction(usage: real, highest: real): (r: real)
    ensures 0.0 <= usage && (usage <= highest || usage <= 1.0) ==> 0.0 <= r <= 1.0
  {
    usage / (if highest < 1.0 then 1.0 else highest)
  }

  /** A usage between zero and the scale gives a fraction between zero and one. */
  lemma FractionInRange(usage: real, highest: real)
    requires 0.0 <= usage && (usage <= highest || usage <= 1.0)
    ensures 0.0 <= Fraction(usage, highest) <= 1.0
  {
  }

  class ResStackSidebarItem {
    var name: string
    var nameLabel: string
    var detail: string
    var detailLabel: string
    var subtitle: string
    var usageLabel: string
    var usage: real
    var fraction: real
    var primaryOrd: nat
    var secondaryOrd: nat
    const graph: Graph.ResGraph

    /** The graph keeps a full queue of samples. */
    ghost predicate Valid()
      reads this, graph
    {
      |graph.dataPoints| == Graph.MaxDataPoints
    }

    constructor (graph: Graph.ResGraph)
      requires |graph.dataPoints| == Graph.MaxDataPoints
      ensures Valid() && this.graph == graph
      ensures name == "" && nameLabel == "" && subtitle == "" && detail == ""
    {
      this.graph := graph;
      name := "";
      nameLabel := "";
      detail := "";
      detailLabel := "";
      subtitle := "";
      usageLabel := "";
      usage := 0.0;
      fraction := 0.0;
      primaryOrd := 0;
      secondaryOrd := 0;
    }

    /** `set_name`: an unchanged name leaves the label alone; a new one is stored and shown. */
    method SetName(next: string)
      modifies this
      ensures (name, nameLabel) == SetText(old(name), old(nameLabel), next)
      ensures old(name) == next ==> nameLabel == old(nameLabel)
      ensures old(name) != next ==> name == next && nameLabel == next
      ensures subtitle == old(subtitle) && detail == old(detail) && usage == old(usage)
    {
      if name == next {
        return;
      }
      name := next;
      nameLabel := next;
    }

    /** `set_subtitle`, storing the new value as `set_name` does. */
    method SetSubtitle(next: string)
      modifies this
      ensures (subtitle, usageLabel) == SetText(old(subtitle), old(usageLabel), next)
      ensures name == old(name) && detail == old(detail) && usage == old(usage)
    {
      if subtitle == next {
        return;
      }
      subtitle := next;
      usageLabel := next;
    }

    /** `set_detail`, storing the new value as `set_name` does. */
    method SetDetail(next: string)
      modifies this
      ensures (detail, detailLabel) == SetText(old(detail), old(detailLabel), next)
      ensures name == old(name) && subtitle == old(subtitle) && usage == old(usage)
    {
      if detail == next {
        return;
      }
      detail := next;
      detailLabel := next;
    }

    /** `set_usage`: the usage is stored, the bar set to its fraction of the highest shown
        sample (at least 1), and only then is the usage pushed onto the graph. */
    method SetUsage(value: real, shown: nat)
      requires Valid()
      modifies this, graph
      ensures Valid()
      ensures usage == value
      ensures fraction == Fraction(value, old(graph.HighestValue(shown)))
      ensures graph.dataPoints == old(graph.dataPoints)[1..] + [value]
      ensures name == old(name) && subtitle == old(subtitle) && detail == old(detail)
    {
      usage := value;
      var highest := graph.HighestValue(shown);
      if highest < 1.0 {
        highest := 1.0;
      }
      fraction := value / highest;
      graph.PushDataPoint(value);
      Graph.PushKeepsNewest(old(graph.dataPoints), value);
    }

    /** `ord` against another item. */
    function Compare(other: ResStackSidebarItem): (r: Ordering)
      reads this, other
      ensures r == Equal <==> primaryOrd == other.primaryOrd && secondaryOrd == other.secondaryOrd
    {
      OrdIsLexicographic(primaryOrd, secondaryOrd, other.primaryOrd, other.secondaryOrd);
      Ord(primaryOrd, secondaryOrd, other.primaryOrd, other.secondaryOrd)
    }
  }
}
