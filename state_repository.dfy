/**
 * The chat-state table (repositories/state_repository.go): one row per
 * telegram_id holding the command the chat is expected to answer next.
 * A failing SQL statement is given to each operation as a flag.
 */
module StateRepository {

  /** The state of a chat; a chat without a row is in the empty state. */
  function StateOf(states: map<int, string>, telegramID: int): string {
    if telegramID in states then states[telegramID] else ""
  }

  class StateRepository {
    var states: map<int, string>

    /** An empty table (the database's `CREATE TABLE IF NOT EXISTS`). */
    constructor ()
      ensures states == map[]
    {
      states := map[];
    }

    /**
     * `Upsert`: `INSERT OR REPLACE` of the chat's single row; other chats'
     * rows are untouched. On a failing statement nothing changes.
     */
    method Upsert(telegramID: int, state: string, fail: bool) returns (err: bool)
      modifies this
      ensures err == fail
      ensures states == if fail then old(states) else old(states)[telegramID := state]
    {
      if fail {
        return true;
      }
      states := states[telegramID := state];
      return false;
    }

    /**
     * `GetState`: the stored state, or "" with no error when the chat has
     * no row; a failing query gives "" and an error.
     */
    method GetState(telegramID: int, fail: bool) returns (state: string, err: bool)
      ensures err == fail
      ensures state == if fail then "" else StateOf(states, telegramID)
      ensures !fail && telegramID !in states ==> state == ""
    {
      if fail {
        return "", true;
      }
      if telegramID in states {
        return states[telegramID], false;
      }
      return "", false;
    }
  }

  /**
   * After an upsert the chat reads back what was written, every other chat
   * reads what it read before, and repeating the upsert changes nothing.
   */
  lemma UpsertThenGet(states: map<int, string>, telegramID: int, state: string, other: int)
    ensures StateOf(states[telegramID := state], telegramID) == state
    ensures other != telegramID ==> StateOf(states[telegramID := state], other) == StateOf(states, other)
    ensures states[telegramID := state][telegramID := state] == states[telegramID := state]
  {
  }
}
