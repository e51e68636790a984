/** The waiter lists of the embedded channels (src/platform/sync_embedded.rs). */
module Wakers {

  /** What a waker wakes. Two wakers of one task `will_wake` each other. */
  type Task = nat

  predicate Unique(ts: seq<Task>) { forall i, j | 0 <= i < j < |ts| :: ts[i] != ts[j] }

  /** `push_waker_unique`: one waker per task, however often it is polled. */
  function Register(wakers: seq<Task>, t: Task): (r: seq<Task>)
    ensures t in r && (forall x :: x in wakers ==> x in r) && (forall x :: x in r ==> x == t || x in wakers)
    ensures Unique(wakers) ==> Unique(r)
  {
    if t in wakers then wakers else wakers + [t]
  }
}
