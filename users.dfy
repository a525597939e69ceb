/** The `users` table as far as `save_user_history` (backend/app.py:159-168) touches it: one
    record per registered email, whose history column is a growing transcript. */
module Users {
  import opened Optional

  /** A row of `users`; `id` and `email` are the key of the map that holds it. */
  datatype Record = Record(passwordHash: string, history: string, lastQuestion: string)

  function UserEntry(m: string): string {
    "User: " + m
  }

  function BotEntry(r: string): string {
    "Bot: " + r
  }

  /** The line one exchange adds to the stored transcript. */
  function HistoryLine(m: string, r: string): string {
    UserEntry(m) + " | " + BotEntry(r) + "\n"
  }

  /** The table after `save_user_history(email, m, r)`: a registered email's history gains the
      exchange's line and nothing else changes; an unregistered email, or no email at all (the
      query `email = NULL` matches no row), leaves the table as it was. */
  function MergeHistory(rows: map<string, Record>, email: Option<string>, m: string, r: string)
    : (rows': map<string, Record>)
    ensures rows'.Keys == rows.Keys
    ensures forall e :: e in rows && email != Some(e) ==> rows'[e] == rows[e]
    ensures email.Some? && email.value in rows ==>
      var old_ := rows[email.value];
      var new_ := rows'[email.value];
      new_.history == old_.history + HistoryLine(m, r) &&
      new_.passwordHash == old_.passwordHash && new_.lastQuestion == old_.lastQuestion
    ensures email.None? || email.value !in rows ==> rows' == rows
  {
    if email.Some? && email.value in rows then
      var row := rows[email.value];
      rows[email.value := row.(history := row.history + HistoryLine(m, r))]
    else rows
  }

  /** Merging exchange after exchange appends their lines in order. */
  function MergeAll(rows: map<string, Record>, email: Option<string>, exchanges: seq<(string, string)>)
    : map<string, Record>
    decreases |exchanges|
  {
    if exchanges == [] then rows
    else MergeAll(MergeHistory(rows, email, exchanges[0].0, exchanges[0].1), email, exchanges[1..])
  }

  /** The lines a run of exchanges adds, oldest first. */
  function Transcript(exchanges: seq<(string, string)>): string
    decreases |exchanges|
  {
    if exchanges == [] then "" else HistoryLine(exchanges[0].0, exchanges[0].1) + Transcript(exchanges[1..])
  }

  /** The stored history is an append-only log: after any run of turns a registered email's
      history is its old history followed by one line per exchange, and no other row changes. */
  lemma {:induction false} MergeAllAppends(rows: map<string, Record>, email: Option<string>,
                                           exchanges: seq<(string, string)>)
    ensures MergeAll(rows, email, exchanges).Keys == rows.Keys
    ensures forall e :: e in rows && email != Some(e) ==> MergeAll(rows, email, exchanges)[e] == rows[e]
    ensures email.Some? && email.value in rows ==>
      MergeAll(rows, email, exchanges)[email.value].history == rows[email.value].history + Transcript(exchanges)
    decreases |exchanges|
  {
    if exchanges != [] {
      var next := MergeHistory(rows, email, exchanges[0].0, exchanges[0].1);
      MergeAllAppends(next, email, exchanges[1..]);
      if email.Some? && email.value in rows {
        assert rows[email.value].history + Transcript(exchanges) ==
          (rows[email.value].history + HistoryLine(exchanges[0].0, exchanges[0].1)) + Transcript(exchanges[1..]);
      }
    }
  }

  /** The storage collaborator's `users` table. */
  class UserTable {
    var rows: map<string, Record>

    constructor (rows0: map<string, Record>)
      ensures rows == rows0
    {
      rows := rows0;
    }

    /** `save_user_history`: look the email up; when a row exists, write back its history with
        the exchange's line appended. */
    method SaveUserHistory(email: Option<string>, m: string, r: string)
      modifies this
      ensures rows == MergeHistory(old(rows), email, m, r)
      ensures email.Some? && email.value in old(rows) ==> old(rows)[email.value].history <= rows[email.value].history
    {
      if email.Some? && email.value in rows {
        var row := rows[email.value];
        var updated := row.history + HistoryLine(m, r);
        rows := rows[email.value := row.(history := updated)];
      }
    }
  }
}
