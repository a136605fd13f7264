/** Invoice status transitions and the rollback walk (app/state_machine.py and
    the rollback loop of app/reconciliation.py). */
module StateMachine {
  import opened Basics
  import opened Model

  function Legal(current: Status): set<Status> {
    match current
    case Created => {AwaitingPayment}
    case AwaitingPayment => {Detected, Expired}
    case Detected => {Confirming, AwaitingPayment}
    case Confirming => {Confirmed, Detected}
    case Confirmed => {Settled, Confirming}
    case Settled => {}
    case Expired => {}
  }

  function Transition(current: Status, target: Status): Result<Status, Failure> {
    if target == current then Ok(current)
    else if target !in Legal(current) then Err(IllegalTransition(current, target))
    else Ok(target)
  }

  /** The dictionary that the rollback loop indexes; None is a missing key. */
  function PreviousStatus(status: Status): Option<Status> {
    match status
    case Confirmed => Some(Confirming)
    case Confirming => Some(Detected)
    case Detected => Some(AwaitingPayment)
    case _ => None
  }

  function Depth(status: Status): nat {
    match status
    case Confirmed => 3
    case Confirming => 2
    case Detected => 1
    case _ => 0
  }

  function RollBack(status: Status): Result<Status, Failure>
    decreases Depth(status)
  {
    if status == AwaitingPayment then Ok(status)
    else match PreviousStatus(status)
      case None => Err(NoRollbackEdge(status))
      case Some(prev) =>
        var next :- Transition(status, prev);
        RollBack(next)
  }

  /** The walk back raises nothing, and ends in AWAITING_PAYMENT, exactly from the
      statuses between detection and confirmation and from AWAITING_PAYMENT
      itself; from the others it raises the missing-key error, never an illegal
      transition. */
  lemma RollBackReachesAwaiting(status: Status)
    ensures RollBack(status) ==
            if status in {AwaitingPayment, Detected, Confirming, Confirmed} then Ok(AwaitingPayment)
            else Err(NoRollbackEdge(status))
    decreases Depth(status)
  {
    if PreviousStatus(status).Some? {
      RollBackReachesAwaiting(PreviousStatus(status).value);
    }
  }

  /** SETTLED and EXPIRED are the only statuses with no way out. */
  lemma TerminalStatuses(status: Status)
    ensures (forall target :: Transition(status, target).Ok? ==> target == status)
            <==> status in {Settled, Expired}
  {
    var next :=
      match status
      case Created => AwaitingPayment
      case AwaitingPayment => Detected
      case Detected => Confirming
      case Confirming => Confirmed
      case Confirmed => Settled
      case Settled => Settled
      case Expired => Expired;
    assert Transition(status, next).Ok?;
  }

  /** The whole table: the nine moves between different statuses that do not raise. */
  lemma NineEdges(current: Status, target: Status)
    ensures Transition(current, target).Ok? <==>
            || current == target
            || (current, target) in {
                 (Created, AwaitingPayment), (AwaitingPayment, Detected), (AwaitingPayment, Expired),
                 (Detected, Confirming), (Detected, AwaitingPayment), (Confirming, Confirmed), (Confirming, Detected),
                 (Confirmed, Settled), (Confirmed, Confirming)}
    ensures var r := Transition(current, target);
            r == Ok(target) || r == Err(IllegalTransition(current, target))
  {
  }
}
