/** A side-panel entry
    (src/app/components/question-side-panel/question-panel-item/question-panel-item.component.ts
    and the `NavigationItem` record of src/app/components/question-side-panel/types.ts). */
module PanelItem {
  import opened Wrappers

  /** Exactly one of three states. */
  datatype NavigationItemState = Visited | Current | Pending

  datatype NavigationItem = NavigationItem(
    description: string,
    state: NavigationItemState,
    id: string,
    isActive: bool)

  /** `onQuestionClick`: a pending item emits nothing; a visited or current
      item emits its id once. The item itself is not changed. */
  function OnQuestionClick(item: NavigationItem): (emitted: Option<string>)
    ensures emitted.None? <==> item.state == Pending
    ensures emitted.Some? ==> emitted.value == item.id
  {
    if item.state != Pending then Some(item.id) else None
  }
}
