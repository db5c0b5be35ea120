/** What most modules share: optional values, and the smaller and the larger of two numbers. */
module Common {

  datatype Option<+T> = None | Some(value: T)

  function Min(a: int, b: int): int { if a < b then a else b }

  function Max(a: int, b: int): int { if a < b then b else a }

  function Listed<T>(o: Option<T>): seq<T> { match o case None => [] case Some(x) => [x] }

  /** What is there, in order. */
  function Present<T>(list: seq<Option<T>>): seq<T> {
    if list == [] then [] else Listed(list[0]) + Present(list[1..])
  }

  lemma PushPresent<T>(first: Option<T>, list: seq<Option<T>>)
    ensures Present([first] + list) == Listed(first) + Present(list)
    ensures Present<T>([]) == []
  {
    assert ([first] + list)[1..] == list;
  }
}
