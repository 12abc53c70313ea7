/** Java's `null`, written as an option: `None` is a null reference. */
module Nullable {

  datatype Option<+T> = None | Some(value: T)
}

/** The Java value types the mappers copy from one object to another. */
module JavaTypes {
  import opened Nullable

  /** A Java `long`: a signed 64-bit integer. */
  newtype Long = x: int | -0x8000_0000_0000_0000 <= x < 0x8000_0000_0000_0000

  /** A boxed `java.lang.Long` identifier, which may be null (an entity not yet persisted). */
  type Id = Option<Long>

  /** A `java.lang.String` reference, which may be null. */
  type Str = Option<string>

  /** A `java.util.Date`: an instant, counted in milliseconds since the epoch.
      The mappers only copy dates, so nothing but equality is used. */
  datatype Date = Date(epochMillis: Long)
}

/** `list.stream().map(f).collect(Collectors.toList())`, as used by every list variant of the mappers. */
module Streams {
  import opened Nullable

  /** The list of `f` applied to each element of `s`, in order. */
  function Map<A, B>(f: A -> B, s: seq<A>): (r: seq<B>)
    ensures |r| == |s|
    ensures forall i :: 0 <= i < |s| ==> r[i] == f(s[i])
  {
    if s == [] then [] else [f(s[0])] + Map(f, s[1..])
  }

  /** A list variant of a mapper: a null list maps to null, any other list element-wise. */
  function MapOrNull<A, B>(f: A -> B, list: Option<seq<A>>): (r: Option<seq<B>>)
    ensures r.None? <==> list.None?
    ensures list.Some? ==> |r.value| == |list.value|
    ensures list.Some? ==> forall i :: 0 <= i < |list.value| ==> r.value[i] == f(list.value[i])
  {
    match list
    case None => None
    case Some(s) => Some(Map(f, s))
  }
}
