/** The nine states of a media generation and the moves between them. */
module Lifecycle {
  import opened Wrappers

  datatype Status =
    Queued | Interpreting | Classified | Generating | Uploading | Publishing | Completed | Failed | Cancelled

  predicate IsTerminal(s: Status) {
    s.Completed? || s.Failed? || s.Cancelled?
  }

  predicate CanTransition(from: Status, to: Status) {
    match from
    case Queued => to.Interpreting? || to.Failed? || to.Cancelled?
    case Interpreting => to.Classified? || to.Failed? || to.Cancelled?
    case Classified => to.Generating? || to.Failed? || to.Cancelled?
    case Generating => to.Uploading? || to.Failed? || to.Cancelled?
    case Uploading => to.Publishing? || to.Failed? || to.Cancelled?
    case Publishing => to.Completed? || to.Failed?
    case Completed => false
    case Failed => false
    case Cancelled => false
  }

  function NextStatuses(s: Status): seq<Status> {
    match s
    case Queued => [Interpreting, Failed, Cancelled]
    case Interpreting => [Classified, Failed, Cancelled]
    case Classified => [Generating, Failed, Cancelled]
    case Generating => [Uploading, Failed, Cancelled]
    case Uploading => [Publishing, Failed, Cancelled]
    case Publishing => [Completed, Failed]
    case Completed => []
    case Failed => []
    case Cancelled => []
  }

  /** The place of a status in the fixed order. */
  function OrderIndex(s: Status): nat {
    match s
    case Queued => 0
    case Interpreting => 1
    case Classified => 2
    case Generating => 3
    case Uploading => 4
    case Publishing => 5
    case Completed => 6
    case Failed => 7
    case Cancelled => 8
  }

  predicate StatusBefore(s: Status, checkpoint: Status) {
    !IsTerminal(s) && OrderIndex(s) < OrderIndex(checkpoint)
  }

  /** A status that may be missing, as the code compares it. */
  predicate OptionStatusBefore(s: Option<Status>, checkpoint: Status) {
    s.None? || StatusBefore(s.value, checkpoint)
  }

  /** Some moves, each one allowed. */
  predicate IsPath(p: seq<Status>) {
    forall i | 0 < i < |p| :: CanTransition(p[i - 1], p[i])
  }

  /** The number of moves still possible. */
  function MovesLeft(s: Status): nat {
    if IsTerminal(s) then 0 else 6 - OrderIndex(s)
  }

  /** What the table of moves adds up to: the listed successors are the allowed ones, a status with none is terminal,
      and every move goes up in the order. */
  lemma MovesGoUp(from: Status, to: Status)
    ensures to in NextStatuses(from) <==> CanTransition(from, to)
    ensures IsTerminal(from) <==> NextStatuses(from) == []
    ensures CanTransition(from, to) ==> OrderIndex(from) < OrderIndex(to) && MovesLeft(to) < MovesLeft(from)
    ensures StatusBefore(from, to) <==> OptionStatusBefore(Some(from), to)
    ensures StatusBefore(from, to) ==> from != to && !StatusBefore(to, from)
  {
  }

  /** No chain of moves holds more than seven statuses, and it only goes up. */
  lemma {:induction false} PathsAreShort(p: seq<Status>)
    requires IsPath(p) && |p| > 0
    ensures |p| <= 1 + MovesLeft(p[0]) <= 7
    ensures OrderIndex(p[0]) <= OrderIndex(p[|p| - 1])
    ensures IsTerminal(p[0]) ==> |p| == 1
  {
    if |p| > 1 {
      assert CanTransition(p[0], p[1]);
      assert IsPath(p[1..]) by {
        forall i | 0 < i < |p[1..]| ensures CanTransition(p[1..][i - 1], p[1..][i]) {
          assert CanTransition(p[i], p[i + 1]);
        }
      }
      PathsAreShort(p[1..]);
    }
  }

  ghost predicate Reaches(from: Status, to: Status) {
    exists p :: |p| > 0 && IsPath(p) && p[0] == from && p[|p| - 1] == to
  }

  /** The statuses of a generation that neither fails nor is cancelled, in the order of the lifecycle. */
  const MAIN_LINE: seq<Status> := [Queued, Interpreting, Classified, Generating, Uploading, Publishing, Completed]

  /** The second status is the first one, or later on the main line. */
  predicate Forward(from: Status, to: Status) {
    from == to || (StatusBefore(from, to) && OrderIndex(to) <= 6)
  }

  lemma MainLineMoves(i: nat)
    requires i <= 6
    ensures OrderIndex(MAIN_LINE[i]) == i
    ensures i < 6 ==> CanTransition(MAIN_LINE[i], MAIN_LINE[i + 1])
  {
  }

  lemma OnMainLine(s: Status)
    requires OrderIndex(s) <= 6
    ensures MAIN_LINE[OrderIndex(s)] == s
  {
  }

  /** The main line between two statuses: the path that every workflow step follows. */
  function MainLine(from: Status, to: Status): (p: seq<Status>)
    requires Forward(from, to)
    ensures |p| > 0 && p[0] == from && p[|p| - 1] == to
    ensures |p| == 1 + OrderIndex(to) - OrderIndex(from)
    ensures IsPath(p)
  {
    if from == to then [from]
    else
      OnMainLine(from);
      OnMainLine(to);
      MainLineIsPath(OrderIndex(from), OrderIndex(to) + 1);
      MAIN_LINE[OrderIndex(from)..OrderIndex(to) + 1]
  }

  lemma MainLineIsPath(i: nat, j: nat)
    requires i <= j <= 7
    ensures IsPath(MAIN_LINE[i..j])
  {
    forall k | 0 < k < j - i ensures CanTransition(MAIN_LINE[i..j][k - 1], MAIN_LINE[i..j][k]) {
      MainLineMoves(i + k - 1);
    }
  }

  /** A move on the main line makes it one longer. */
  lemma MainLineStep(from: Status, mid: Status, to: Status)
    requires Forward(from, mid) && CanTransition(mid, to) && OrderIndex(to) <= 6
    ensures Forward(from, to) && MainLine(from, to) == MainLine(from, mid) + [to]
  {
    NextIsNext(mid, to);
    OnMainLine(to);
    OnMainLine(mid);
    var i, j := OrderIndex(from), OrderIndex(mid);
    SliceLast(MAIN_LINE, i, j + 1);
    if from == mid { assert MAIN_LINE[i..i + 2] == [MAIN_LINE[i]] + [MAIN_LINE[i + 1]]; }
  }

  lemma SliceLast<T>(s: seq<T>, i: nat, j: nat)
    requires i <= j < |s|
    ensures s[i..j + 1] == s[i..j] + [s[j]]
  {
  }

  lemma NextIsNext(from: Status, to: Status)
    requires CanTransition(from, to) && OrderIndex(to) <= 6
    ensures OrderIndex(to) == OrderIndex(from) + 1
  {
  }

  /** Which statuses can follow which: a status leads to itself, and one that is not terminal to everything above it,
      but for a publishing generation that can no longer be cancelled. */
  lemma ReachesExactly(from: Status, to: Status)
    ensures Reaches(from, to) <==> from == to || (StatusBefore(from, to) && !(from.Publishing? && to.Cancelled?))
  {
    if Reaches(from, to) {
      var p :| |p| > 0 && IsPath(p) && p[0] == from && p[|p| - 1] == to;
      PathBounds(p);
    }
    if Forward(from, to) {
      assert IsPath(MainLine(from, to));
    } else if StatusBefore(from, to) && !(from.Publishing? && to.Cancelled?) {
      assert IsPath([from, to]);
      assert [from, to][0] == from && [from, to][1] == to;
    }
  }

  lemma {:induction false} PathBounds(p: seq<Status>)
    requires |p| > 0 && IsPath(p)
    ensures p[0] == p[|p| - 1] || StatusBefore(p[0], p[|p| - 1])
    ensures !(p[0].Publishing? && p[|p| - 1].Cancelled?)
  {
    if |p| > 1 {
      assert CanTransition(p[0], p[1]);
      assert IsPath(p[1..]) by {
        forall i | 0 < i < |p[1..]| ensures CanTransition(p[1..][i - 1], p[1..][i]) {
          assert CanTransition(p[i], p[i + 1]);
        }
      }
      PathBounds(p[1..]);
    }
  }

  function AsStr(s: Status): string {
    match s
    case Queued => "queued"
    case Interpreting => "interpreting"
    case Classified => "classified"
    case Generating => "generating"
    case Uploading => "uploading"
    case Publishing => "publishing"
    case Completed => "completed"
    case Failed => "failed"
    case Cancelled => "cancelled"
  }

  function FromStr(s: string): Option<Status> {
    match s
    case "queued" => Some(Queued)
    case "interpreting" => Some(Interpreting)
    case "classified" => Some(Classified)
    case "generating" => Some(Generating)
    case "uploading" => Some(Uploading)
    case "publishing" => Some(Publishing)
    case "completed" => Some(Completed)
    case "failed" => Some(Failed)
    case "cancelled" => Some(Cancelled)
    case _ => None
  }

  /** The status column names exactly one status. */
  lemma StatusText(s: Status, t: string)
    ensures FromStr(t) == Some(s) <==> t == AsStr(s)
  {
  }
}
