/** A player's answer for one match: the (match, user) row of
    `match_availabilities` is set to the submitted status, and the three
    answer buttons come back with the chosen one highlighted. */
module MatchAvailabilityController {
  import opened Wrappers
  import opened Models
  import opened Tables
  import UserModel

  /** One answer button: the status it submits, its caption, and whether it is highlighted. */
  datatype AnswerButton = AnswerButton(value: string, caption: string, highlighted: bool)

  const ANSWERS: seq<(string, string)> := [("yes", "Yes, I can play"), ("maybe", "Maybe"), ("no", "No, I can't make it")]

  /** The returned fragment: the three buttons in order, highlighted where equal to `status`. */
  function Fragment(status: string): (r: seq<AnswerButton>)
    ensures |r| == 3 && r[0].value == "yes" && r[1].value == "maybe" && r[2].value == "no"
    ensures forall i :: 0 <= i < 3 ==> (r[i].highlighted <==> r[i].value == status)
    ensures status in {"yes", "maybe", "no"} ==> exists i :: 0 <= i < 3 && r[i].highlighted
    ensures status !in {"yes", "maybe", "no"} ==> forall i :: 0 <= i < 3 ==> !r[i].highlighted
  {
    seq(3, i requires 0 <= i < 3 => AnswerButton(ANSWERS[i].0, ANSWERS[i].1, ANSWERS[i].0 == status))
  }

  /** At most one button is highlighted. */
  lemma AtMostOneHighlighted(status: string, i: int, j: int)
    requires 0 <= i < 3 && 0 <= j < 3 && Fragment(status)[i].highlighted && Fragment(status)[j].highlighted
    ensures i == j
  {
  }

  /** `update`: upsert (match, user) with the status as submitted, no check that it is one of the three. */
  method Update(table: KeyedTable<AvailabilityKey, string>, matchId: int, user: UserModel.User, status: string)
    returns (fragment: seq<AnswerButton>)
    requires table.Valid()
    modifies table
    ensures table.Valid()
    ensures table.rows == Upsert(old(table.rows), AvailabilityKey(matchId, user.id), status)
    ensures table.Get(AvailabilityKey(matchId, user.id)) == Some(status)
    ensures forall k :: k != AvailabilityKey(matchId, user.id) ==> table.Get(k) == Lookup(old(table.rows), k)
    ensures fragment == Fragment(status)
  {
    table.UpdateOrCreate(AvailabilityKey(matchId, user.id), status);
    fragment := Fragment(status);
  }

  /** Answering twice with the same status leaves the table as answering once. */
  lemma AnswerIdempotent(rows: seq<(AvailabilityKey, string)>, k: AvailabilityKey, status: string)
    ensures Upsert(Upsert(rows, k, status), k, status) == Upsert(rows, k, status)
  {
    UpsertIdempotent(rows, k, status);
  }
}
