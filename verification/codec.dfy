/** The JSON codec (Jackson `ObjectMapper`) as an abstract pair of functions.
    `Option<V>` is the Java reference: `None` is `null`, which Jackson writes
    and reads like any other value. Either direction may throw a
    `JsonProcessingException`. */
module Codec {
  import opened Wrappers

  /** The outcome of `writeValueAsString`: the JSON text, or a `JsonProcessingException`. */
  datatype Encoded = Encoded(text: string) | Unencodable

  /** The outcome of `readValue`: a (possibly null) value, or a `JsonProcessingException`. */
  datatype Decoded<V> = Decoded(value: Option<V>) | Malformed

  datatype Codec<!V> = Codec(serialize: Option<V> -> Encoded, deserialize: string -> Decoded<V>)

  /** `v` can be written, and survives the write followed by a read. */
  ghost predicate RoundTrips<V>(codec: Codec<V>, v: Option<V>) {
    && codec.serialize(v).Encoded?
    && codec.deserialize(codec.serialize(v).text) == Decoded(v)
  }
}
