/**
 * The message log (core/database.py): the sqlite table `messages` with an
 * AUTOINCREMENT id, modelled as a sequence of rows in insertion order and
 * the counter that hands out ids.
 *
 * Assumption: `ORDER BY timestamp DESC` is read as "newest inserted first".
 * CURRENT_TIMESTAMP has one-second resolution, so rows saved within the same
 * second have no specified order in the source; the model fixes it.
 */
module Database {
  import opened Outcomes

  /** A message as the callers see it: a role ("user" or "assistant") and its text */
  datatype Msg = Msg(role: string, content: string)

  /** A row of the table */
  datatype Row = Row(id: nat, role: string, content: string)

  function MessagesOf(rows: seq<Row>): seq<Msg> {
    seq(|rows|, i requires 0 <= i < |rows| => Msg(rows[i].role, rows[i].content))
  }

  function Reverse<T>(s: seq<T>): (r: seq<T>)
    ensures |r| == |s|
    ensures forall i | 0 <= i < |s| :: r[i] == s[|s| - 1 - i]
  {
    if s == [] then [] else [s[|s| - 1]] + Reverse(s[..|s| - 1])
  }

  /** `SELECT role, content ... ORDER BY timestamp DESC` */
  function NewestFirst(rows: seq<Row>): seq<Msg> {
    Reverse(MessagesOf(rows))
  }

  /**
   * The LIMIT clause. It is added only for a truthy limit (None and 0 add
   * nothing), and SQLite reads a negative LIMIT as no bound at all.
   */
  function Limited(s: seq<Msg>, limit: Option<int>): (r: seq<Msg>)
    ensures |r| <= |s| && r == s[..|r|]
    ensures limit.Some? && limit.value > 0 ==> |r| == if limit.value < |s| then limit.value else |s|
    ensures limit.None? || limit.value <= 0 ==> r == s
  {
    if limit.Some? && 0 < limit.value < |s| then s[..limit.value] else s
  }

  /**
   * What get_conversation_history returns: the query's rows, newest first
   * and limited, then reversed. It is the `limit` most recent messages,
   * oldest first; without a positive limit, every message.
   */
  function Recent(rows: seq<Row>, limit: Option<int>): (r: seq<Msg>)
    ensures |r| <= |rows| && r == MessagesOf(rows)[|rows| - |r|..]
    ensures limit.Some? && limit.value > 0 ==>
              |r| == if limit.value < |rows| then limit.value else |rows|
    ensures limit.None? || limit.value <= 0 ==> r == MessagesOf(rows)
  {
    var kept := Limited(NewestFirst(rows), limit);
    ReverseOfNewestPrefix(MessagesOf(rows), |kept|);
    Reverse(kept)
  }

  /** Reversing a prefix of the reversed sequence gives back a suffix, in the original order */
  lemma {:induction false} ReverseOfNewestPrefix<T>(s: seq<T>, k: nat)
    requires k <= |s|
    ensures Reverse(Reverse(s)[..k]) == s[|s| - k..]
  {
    var t := Reverse(s)[..k];
    var r := Reverse(t);
    forall i | 0 <= i < k
      ensures r[i] == s[|s| - k + i]
    {
      assert r[i] == t[k - 1 - i];
      assert t[k - 1 - i] == Reverse(s)[k - 1 - i];
    }
  }

  class MessageStore {
    /** Whether `CREATE TABLE IF NOT EXISTS messages` has run on this database */
    var tableExists: bool
    /** The rows, oldest first */
    var rows: seq<Row>
    /** The id AUTOINCREMENT hands out next; DELETE does not reset it */
    var nextId: nat
    /** Every id handed out so far */
    ghost var issued: set<nat>

    ghost predicate Valid()
      reads this
    {
      && (!tableExists ==> rows == [])
      && (forall i, j | 0 <= i < j < |rows| :: rows[i].id < rows[j].id)
      && (forall i | 0 <= i < |rows| :: rows[i].id in issued)
      && (forall id | id in issued :: 0 < id < nextId)
      && nextId > 0
    }

    function Messages(): seq<Msg>
      reads this
    {
      MessagesOf(rows)
    }

    /** A database file with no table yet; AUTOINCREMENT starts at 1 */
    constructor ()
      ensures Valid()
      ensures !tableExists && rows == [] && nextId == 1 && issued == {}
    {
      tableExists := false;
      rows := [];
      nextId := 1;
      issued := {};
    }

    /** _initialize_database: creates the table if it is missing and leaves every row as it was */
    method InitializeDatabase()
      requires Valid()
      modifies this
      ensures Valid() && tableExists
      ensures rows == old(rows) && nextId == old(nextId) && issued == old(issued)
    {
      tableExists := true;
    }

    /**
     * save_message: one new row at the end holding the role and content as
     * given, under an id never handed out before; earlier rows are untouched.
     */
    method SaveMessage(role: string, content: string)
      requires Valid()
      modifies this
      ensures Valid() && tableExists
      ensures rows == old(rows) + [Row(old(nextId), role, content)]
      ensures Messages() == old(Messages()) + [Msg(role, content)]
      ensures old(nextId) !in old(issued) && issued == old(issued) + {old(nextId)}
      ensures nextId == old(nextId) + 1
    {
      InitializeDatabase();
      assert forall i | 0 <= i < |rows| :: rows[i].id < nextId;
      rows := rows + [Row(nextId, role, content)];
      issued := issued + {nextId};
      nextId := nextId + 1;
    }

    /** get_conversation_history: reads the `limit` most recent messages and changes no row */
    method GetConversationHistory(limit: Option<int>) returns (msgs: seq<Msg>)
      requires Valid()
      modifies this
      ensures Valid() && tableExists
      ensures rows == old(rows) && nextId == old(nextId) && issued == old(issued)
      ensures msgs == Recent(rows, limit)
    {
      InitializeDatabase();
      msgs := Reverse(Limited(NewestFirst(rows), limit));
    }

    /** clear_history: deletes every row; the id counter keeps its value */
    method ClearHistory()
      requires Valid()
      modifies this
      ensures Valid() && tableExists
      ensures rows == [] && nextId == old(nextId) && issued == old(issued)
    {
      InitializeDatabase();
      rows := [];
    }
  }

  /**
   * Two saves, then reads with and without a limit, a clear, a read and one
   * more save: the limited read sees only the latest message, the cleared
   * log reads as empty, and the id given after the clear is not reused.
   */
  method SaveReadClearScenario(question: string, answer: string)
    returns (latest: seq<Msg>, all: seq<Msg>, afterClear: seq<Msg>, idAfterClear: nat)
    ensures latest == [Msg("assistant", answer)]
    ensures all == [Msg("user", question), Msg("assistant", answer)]
    ensures afterClear == []
    ensures idAfterClear == 3
  {
    var db := new MessageStore();
    db.SaveMessage("user", question);
    db.SaveMessage("assistant", answer);
    assert db.rows == [Row(1, "user", question), Row(2, "assistant", answer)];
    assert MessagesOf(db.rows) == [Msg("user", question), Msg("assistant", answer)];
    latest := db.GetConversationHistory(Some(1));
    assert |latest| == 1 && latest == MessagesOf(db.rows)[1..];
    all := db.GetConversationHistory(None);
    assert all == MessagesOf(db.rows);
    db.ClearHistory();
    afterClear := db.GetConversationHistory(None);
    assert afterClear == MessagesOf([]);
    db.SaveMessage("user", question);
    idAfterClear := db.rows[0].id;
  }
}
