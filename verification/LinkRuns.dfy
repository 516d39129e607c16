/** Runs of the sender's link state over every kind of event. */
module LinkRuns {
  import opened Links

  datatype Event =
    | Data(t: int, sn: int, sent: bool)
    | Recv(i: nat, ts: int, m: Message)
    | House(t: int, usable: set<nat>)

  function Step(ls: seq<Link>, e: Event): (r: seq<Link>)
    requires AllValid(ls)
    ensures AllValid(r) && |r| == |ls|
  {
    match e
    case Data(t, sn, sent) => SrtData(ls, t, sn, sent)
    case Recv(i, ts, m) => if i < |ls| then Received(ls, i, ts, m) else ls
    case House(t, usable) => Housekeeping(ls, t, usable)
  }

  function Run(ls: seq<Link>, es: seq<Event>): (r: seq<Link>)
    requires AllValid(ls)
    ensures AllValid(r) && |r| == |ls|
  {
    if es == [] then ls else Step(Run(ls, es[..|es| - 1]), es[|es| - 1])
  }

  /** The links as configured, before any event. */
  function Fresh(n: nat): (ls: seq<Link>)
    ensures AllValid(ls) && |ls| == n
  {
    seq(n, _ => NewLink())
  }
}
