/**
 * What a task card shows (src/components/TaskCard.tsx): its title, the
 * description when there is one, a row of badges and the time spent. The
 * drag handle, the buttons and the styling beyond the badge colours are not
 * modelled.
 */
module Card {
  import opened Wrappers
  import opened Types

  /** `Math.floor(m / 60)` hours and `m % 60` minutes, shown only when the time spent is positive. */
  function TimeLabel(minutes: Option<nat>): (r: Option<(nat, nat)>)
    ensures r.Some? <==> minutes.GetOr(0) > 0
    ensures r.Some? ==> r.value.1 < 60 && r.value.0 * 60 + r.value.1 == minutes.value
  {
    var m := minutes.GetOr(0);
    if m > 0 then Some((m / 60, m % 60)) else None
  }

  /** Hours and minutes under 60 name a positive duration exactly when its label is that pair. */
  lemma TimeLabelExact(h: nat, mm: nat, minutes: nat)
    requires minutes > 0
    ensures TimeLabel(Some(minutes)) == Some((h, mm)) <==> mm < 60 && h * 60 + mm == minutes
  {
    if mm < 60 && h * 60 + mm == minutes {
      var r := TimeLabel(Some(minutes)).value;
      assert r.0 * 60 + r.1 == h * 60 + mm;
    }
  }

  datatype BadgeKind = PriorityBadge | CategoryBadge | TagBadge

  /** One badge: its kind, the colour classes it carries (only the priority badge has any) and its text. */
  datatype Badge = Badge(kind: BadgeKind, colours: string, text: string)

  /** Lines 51-61: the priority, the category when it is non-empty, then one badge per tag in order. */
  function Badges(task: Task): (r: seq<Badge>)
    ensures |r| >= 1 && r[0] == Badge(PriorityBadge, PriorityColor(task.priority), PriorityId(task.priority))
  {
    var category := if task.category.Some? && task.category.value != ""
      then [Badge(CategoryBadge, "", task.category.value)] else [];
    var tags := if task.tags.Some? then task.tags.value else [];
    [Badge(PriorityBadge, PriorityColor(task.priority), PriorityId(task.priority))]
      + category + TagBadges(tags)
  }

  function TagBadges(tags: seq<string>): (r: seq<Badge>)
    ensures |r| == |tags|
    ensures forall k :: 0 <= k < |tags| ==> r[k] == Badge(TagBadge, "", tags[k])
  {
    if tags == [] then [] else [Badge(TagBadge, "", tags[0])] + TagBadges(tags[1..])
  }

  /**
   * The badge row, read back: exactly one priority badge, first; a category
   * badge exactly when the category is non-empty; the tags in order after it.
   */
  lemma BadgesLayout(task: Task)
    ensures var r := Badges(task);
      var c := if task.category.Some? && task.category.value != "" then 1 else 0;
      var tags := if task.tags.Some? then task.tags.value else [];
      && |r| == 1 + c + |tags|
      && (forall k :: 0 <= k < |r| ==> (r[k].kind == PriorityBadge <==> k == 0))
      && (c == 1 <==> exists k :: 0 <= k < |r| && r[k].kind == CategoryBadge)
      && (c == 1 ==> r[1] == Badge(CategoryBadge, "", task.category.value))
      && (forall k :: 0 <= k < |tags| ==> r[1 + c + k] == Badge(TagBadge, "", tags[k]))
  {
    var r := Badges(task);
    var c := if task.category.Some? && task.category.value != "" then 1 else 0;
    if c == 1 {
      assert r[1].kind == CategoryBadge;
    }
  }

  /** Different priorities get differently coloured badges with different text. */
  lemma PriorityBadgeDistinct(t: Task, u: Task)
    requires t.priority != u.priority
    ensures Badges(t)[0].colours != Badges(u)[0].colours
    ensures Badges(t)[0].text != Badges(u)[0].text
  {
    PrioritiesEnumerated();
  }

  /** Everything the card shows about a task. */
  datatype View = View(
    title: string,
    description: Option<string>,
    badges: seq<Badge>,
    dueDate: Option<string>,
    time: Option<(nat, nat)>)

  /**
   * Lines 35-76: the title; the description and the due date only when
   * non-empty (the due date as stored, before formatting); the badges; the
   * time label.
   */
  function Show(task: Task): (r: View)
    ensures r.title == task.title
    ensures r.description.Some? <==> task.description.Some? && task.description.value != ""
    ensures r.description.Some? ==> r.description == task.description
    ensures r.dueDate.Some? <==> task.dueDate.Some? && task.dueDate.value != ""
    ensures r.dueDate.Some? ==> r.dueDate == task.dueDate
    ensures r.badges == Badges(task) && r.time == TimeLabel(task.minutes)
  {
    View(
      task.title,
      if task.description.Some? && task.description.value != "" then task.description else None,
      Badges(task),
      if task.dueDate.Some? && task.dueDate.value != "" then task.dueDate else None,
      TimeLabel(task.minutes))
  }
}
