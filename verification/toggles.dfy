/** Sets of ids that a click adds to or removes from: expanded groups and
    sections, active filter buttons. */
module Toggles {
  /** Adds `id` when absent and removes it when present. */
  function Toggle(s: set<string>, id: string): (r: set<string>)
    ensures id in r <==> id !in s
    ensures forall x :: x != id ==> (x in r <==> x in s)
  {
    if id in s then s - {id} else s + {id}
  }

  /** Toggling the same id twice restores the set. */
  lemma ToggleTwice(s: set<string>, id: string)
    ensures Toggle(Toggle(s, id), id) == s
  {
  }
}
