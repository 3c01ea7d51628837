/** The status chip of a request tile on a regular user's request list
    (frontend/src/pages/RegularPages/MyRequests/components/RequestTile.jsx):
    whether the request is overdue, the chip's colour and its label. */
module RequestTile {
  import opened Common
  import Text

  /** `new Date() > new Date(sla)`; `now` and the deadline are seconds since
      the epoch, and a missing deadline (`null`) is the epoch itself. */
  predicate IsOverdue(now: int, sla: Option<int>, status: string) {
    now > sla.GetOr(0) && status != "completed" && status != "cancelled"
  }

  datatype Chip = Green | Orange | Red | Plain

  function ChipStyle(now: int, sla: Option<int>, status: string): Chip {
    var s := Text.ToLower(status);
    if s == "completed" then Green
    else if s == "cancelled" then Orange
    else if IsOverdue(now, sla, status) then Red
    else Plain
  }

  /** The label: `OVERDUE` and the capitalised status when overdue, else the
      status's words split at `_`, each capitalised, joined with spaces. */
  function ChipText(now: int, sla: Option<int>, status: string): seq<string> {
    if IsOverdue(now, sla, status) then ["OVERDUE", Text.Capitalize(status)]
    else [Text.Join(Words(Text.Split(status, '_')), " ")]
  }

  function Words(parts: seq<string>): (r: seq<string>)
    ensures |r| == |parts|
    ensures forall i :: 0 <= i < |parts| ==> r[i] == Text.Capitalize(parts[i])
  {
    if parts == [] then [] else [Text.Capitalize(parts[0])] + Words(parts[1..])
  }

  /** A finished request is never overdue, whatever its deadline. */
  lemma FinishedNeverOverdue(now: int, sla: Option<int>, status: string)
    requires status == "completed" || status == "cancelled"
    ensures !IsOverdue(now, sla, status)
    ensures status == "completed" ==> ChipStyle(now, sla, status) == Green
    ensures status == "cancelled" ==> ChipStyle(now, sla, status) == Orange
  {
    Text.LowerOfLower(status);
  }

  /** For the lower-case statuses the server sends, the chip is red exactly
      when the request is overdue. */
  lemma RedIffOverdue(now: int, sla: Option<int>, status: string)
    requires Text.ToLower(status) == status
    ensures ChipStyle(now, sla, status) == Red <==> IsOverdue(now, sla, status)
  {
  }

  /** The chip reads as a deadline check only when there is a deadline: an
      open request without one is shown overdue at any time after the epoch. */
  lemma MissingDeadlineIsOverdue(now: int)
    requires now > 0
    ensures IsOverdue(now, None, "open")
  {
  }

  /** `in_progress` is labelled "In Progress" while on time. */
  lemma InProgressLabel(now: int, sla: int)
    requires now <= sla
    ensures ChipText(now, Some(sla), "in_progress") == ["In Progress"]
  {
    assert !IsOverdue(now, Some(sla), "in_progress");
    SplitInProgress();
    WordsInProgress();
  }

  lemma SplitInProgress()
    ensures Text.Split("in_progress", '_') == ["in", "progress"]
  {
    var a, b := "in", "progress";
    var rest := "_" + b;
    assert "in_progress" == a + rest;
    assert rest[1..] == b;
    assert '_' !in a;
    assert '_' !in b;
    Text.SplitAfterPiece(a, rest, '_');
    Text.SplitHead(b, '_');
  }

  lemma WordsInProgress()
    ensures Text.Join(Words(["in", "progress"]), " ") == "In Progress"
  {
    var w := Words(["in", "progress"]);
    assert w[0] == Text.Capitalize("in") == "In";
    assert w[1] == Text.Capitalize("progress") == "Progress";
    assert w == ["In", "Progress"];
  }
}
