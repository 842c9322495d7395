/** What a latest-only slot promises: at most one value, the newest, and a 64-bit count of the ones overwritten. */
module LatestOnly {
  import opened Collections
  import opened Mask

  datatype Slot<T> = Slot(content: Option<T>, drops: nat)

  datatype Event<T> =
    | Stutter          // nothing observable happens
    | Put(x: T)
    | Take             // hands out the content

  function Apply<T>(s: Slot<T>, e: Event<T>): Slot<T> {
    match e
    case Stutter => s
    case Put(x) => Slot(Some(x), if s.content.Some? then WrappingAdd(s.drops, 1) else s.drops)
    case Take => s.(content := None)
  }
}
