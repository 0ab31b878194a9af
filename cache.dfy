/** Django's cache: a mutable map from keys to stored values. */
module Caches {

  /** What the modelled code stores: a primary key, a text (a username or a rendered body), or `None`. */
  datatype CacheValue = CInt(i: int) | CText(s: string) | CNone

  class Cache {
    var entries: map<string, CacheValue>

    constructor (entries: map<string, CacheValue>)
      ensures this.entries == entries
    {
      this.entries := entries;
    }

    /** `cache.set(key, value)`. */
    method Set(key: string, value: CacheValue)
      modifies this
      ensures entries == old(entries)[key := value]
    {
      entries := entries[key := value];
    }
  }
}
