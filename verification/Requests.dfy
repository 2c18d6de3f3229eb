/** Requests to a remote store, each of which is answered or fails. */
module Requests {
  /** How many of the first `n` requests go unanswered. */
  ghost function Unanswered(answers: nat -> bool, n: nat): nat
  {
    if n == 0 then 0 else Unanswered(answers, n - 1) + if answers(n - 1) then 0 else 1
  }

  /** None, if the store answers them all. */
  lemma {:induction false} NoneUnanswered(answers: nat -> bool, n: nat)
    ensures Unanswered(answers, n) == 0 <==> forall i :: 0 <= i < n ==> answers(i)
  {
    if n > 0 {
      NoneUnanswered(answers, n - 1);
    }
  }
}
