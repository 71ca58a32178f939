/**
  The arithmetic the two handlers apply to an item's `likes` field after a
  successful registry change. The field comes from the remote store, so it is
  an `int`: nothing here assumes it is non-negative.
 */
module LikeCounter {

  /** The value a successful like writes back: always above the old one,
      and positive when the old one was not negative, so that a following
      dislike does not hit the floor. */
  function Incremented(likes: int): (r: int)
    ensures r > likes
    ensures likes >= 0 ==> r >= 1
  {
    likes + 1
  }

  /** The value a successful dislike writes back: one less, floored at zero. */
  function Decremented(likes: int): (r: int)
    ensures r >= 0
    ensures likes > 0 ==> r == likes - 1
    ensures likes <= 0 ==> r == 0
  {
    if likes - 1 > 0 then likes - 1 else 0
  }

  /** A dislike undoes a like on a counter that was not negative. */
  lemma DecrementUndoesIncrement(likes: int)
    requires likes >= 0
    ensures Decremented(Incremented(likes)) == likes
  {
  }

  /** A like undoes a dislike exactly when the floor was not reached. */
  lemma IncrementUndoesDecrement(likes: int)
    ensures Incremented(Decremented(likes)) == likes <==> likes >= 1
  {
  }
}
