/**
 * The access wrappers around a message handler (handlers/middlewares.go).
 * A handler maps an incoming message to the messages it answers with;
 * `sender` reads the sender's Telegram id off a message.
 */
module Middlewares {

  /**
   * The guard both wrappers test before answering nothing: the group is
   * empty and yet holds the sender.
   */
  predicate Blocked(group: seq<int>, senderID: int) {
    |group| == 0 && senderID in group
  }

  /** No group and no sender satisfy the guard. */
  lemma NeverBlocked(group: seq<int>, senderID: int)
    ensures !Blocked(group, senderID)
  {
  }

  /**
   * `AuthAdmin`: answers nothing when the guard holds, otherwise hands the
   * message to `next` unchanged. As the guard never holds, the wrapped
   * handler answers every message exactly as `next` does.
   */
  function AuthAdmin<M(!new), R>(authGroup: seq<int>, sender: M -> int, next: M -> seq<R>): (h: M -> seq<R>)
    ensures forall m :: h(m) == next(m)
  {
    m => if Blocked(authGroup, sender(m)) then [] else next(m)
  }

  /** `AuthAllowed`: the same guard, so the same forwarding. */
  function AuthAllowed<M(!new), R>(allowedGroup: seq<int>, sender: M -> int, next: M -> seq<R>): (h: M -> seq<R>)
    ensures forall m :: h(m) == next(m)
  {
    m => if Blocked(allowedGroup, sender(m)) then [] else next(m)
  }

  // ----- the guard as intended -----

  /** A configured group that does not hold the sender. */
  predicate Outsider(group: seq<int>, senderID: int) {
    |group| > 0 && senderID !in group
  }

  /**
   * The wrapper as evidently intended: an empty group lets everyone
   * through, a non-empty one answers its members as `next` does and
   * everyone else with nothing.
   */
  function AuthIntended<M(!new), R>(group: seq<int>, sender: M -> int, next: M -> seq<R>): (h: M -> seq<R>)
    ensures forall m :: group == [] || sender(m) in group ==> h(m) == next(m)
    ensures forall m :: group != [] && sender(m) !in group ==> h(m) == []
  {
    m => if Outsider(group, sender(m)) then [] else next(m)
  }

  /** As written, an outsider of a configured group is answered; as intended, it is not. */
  lemma OutsiderAnswered<M(!new), R>(sender: M -> int, next: M -> seq<R>, m: M)
    requires sender(m) == 2 && next(m) != []
    ensures AuthAdmin([1], sender, next)(m) == next(m)
    ensures AuthIntended([1], sender, next)(m) == []
  {
  }
}
