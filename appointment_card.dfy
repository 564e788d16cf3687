/**
 * Which action buttons an appointment card shows, and what each one sends.
 *
 * The viewer id and the `isUpcoming` flag are optional properties of the card;
 * a missing flag behaves as false. The list passes `isUpcoming` only on the
 * upcoming tab.
 */
module AppointmentCard {
  import opened Wrappers
  import opened AppointmentQuery

  /** A button press: `onAction(id, action)`. */
  datatype ActionRequest = ActionRequest(id: string, action: Action)

  /** `appointment.created_by === userId` (never true when the viewer id is absent). */
  predicate ViewerIsCreator(a: Appointment, userId: Option<string>) {
    userId == Some(a.createdBy)
  }

  /** The actions among the buttons. */
  function ActionsOf(buttons: seq<ActionRequest>): set<Action> {
    set b | b in buttons :: b.action
  }

  /** The card's buttons, in the order they are rendered. */
  function Buttons(a: Appointment, userId: Option<string>, isUpcoming: Option<bool>): (r: seq<ActionRequest>)
    ensures forall b :: b in r ==> b.id == a.id
    ensures Cancel in ActionsOf(r) <==> ViewerIsCreator(a, userId) && a.status != Cancel && isUpcoming == Some(true)
    ensures Accept in ActionsOf(r) <==> !ViewerIsCreator(a, userId) && a.status == Pending && isUpcoming == Some(true)
    ensures Decline in ActionsOf(r) <==> Accept in ActionsOf(r)
    ensures isUpcoming != Some(true) ==> r == []
  {
    var upcoming := isUpcoming.GetOr(false);
    if ViewerIsCreator(a, userId) then
      if a.status != Cancel && upcoming then [ActionRequest(a.id, Cancel)] else []
    else
      if a.status == Pending && upcoming then [ActionRequest(a.id, Accept), ActionRequest(a.id, Decline)] else []
  }

  /** The flag the list hands each card on a tab: true on upcoming, nothing on past. */
  function CardFlag(tab: Tab): Option<bool> {
    match tab
    case Upcoming => Some(true)
    case Past => None
  }

  /**
   * The policy a server would enforce for an action by `actor`: only the
   * creator cancels, and only the other participant accepts or declines a
   * pending appointment.
   */
  predicate Authorized(actor: string, a: Appointment, action: Action) {
    match action
    case Cancel => actor == a.createdBy && a.status != Cancel
    case _ => actor in a.userIds && actor != a.createdBy && a.status == Pending
  }

  /** The creator is offered Cancel at most, and never Accept or Decline. */
  lemma CreatorOnlyCancels(a: Appointment, userId: Option<string>, isUpcoming: Option<bool>)
    requires ViewerIsCreator(a, userId)
    ensures ActionsOf(Buttons(a, userId, isUpcoming)) <= {Cancel}
  {
  }

  /** Someone else is never offered Cancel. */
  lemma OthersNeverCancel(a: Appointment, userId: Option<string>, isUpcoming: Option<bool>)
    requires !ViewerIsCreator(a, userId)
    ensures Cancel !in ActionsOf(Buttons(a, userId, isUpcoming))
  {
  }

  /** Cards on the past tab offer nothing. */
  lemma PastTabOffersNothing(a: Appointment, userId: Option<string>)
    ensures Buttons(a, userId, CardFlag(Past)) == []
  {
  }

  /**
   * For a row the query returned to a viewer, every button the card offers
   * that viewer is an action the server-side policy would allow.
   */
  lemma {:induction false} OfferedActionsAreAuthorized(table: seq<Appointment>, f: Filters, page: int, n: nat,
                                                       now: Clock, a: Appointment)
    requires page >= 1
    requires a in RunQuery(table, f, page, n, now).rows
    ensures forall b :: b in Buttons(a, Some(f.viewer), CardFlag(f.tab)) ==> Authorized(f.viewer, a, b.action)
  {
    assert IsParticipant(a, f.viewer);
    var r := Buttons(a, Some(f.viewer), CardFlag(f.tab));
    forall b | b in r ensures Authorized(f.viewer, a, b.action) {
      assert b.action in ActionsOf(r);
    }
  }
}
