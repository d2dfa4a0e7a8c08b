/** Small things several modules need. */
module Common {
  datatype Option<+T> = None | Some(value: T)

  lemma Assoc<T>(a: seq<T>, b: seq<T>, c: seq<T>)
    ensures a + b + c == a + (b + c)
  {
  }

  // ----- texts that may fail to decode -----

  function Then<T>(c: T, rest: Option<seq<T>>): Option<seq<T>> {
    if rest.None? then None else Some([c] + rest.value)
  }

  /** `done` followed by what the rest of a text decodes to. */
  function Prepended<T>(done: seq<T>, rest: Option<seq<T>>): Option<seq<T>> {
    if rest.None? then None else Some(done + rest.value)
  }

  lemma PrependOne<T>(done: seq<T>, c: T, rest: Option<seq<T>>)
    ensures Prepended(done, Then(c, rest)) == Prepended(done + [c], rest)
  {
    if rest.Some? {
      Assoc(done, [c], rest.value);
    }
  }
}
