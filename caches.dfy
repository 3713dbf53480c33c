/**
 * The per-sender caches of inbound attachments: each maps a sender id to the
 * last attachment seen from that sender, stamped with the time (in
 * milliseconds) it was stored.
 */
module Caches {

  /** A cached value and the instant it was stored. */
  datatype Entry<V> = Entry(value: V, timestamp: int)

  /** A cached media attachment: its URL and its kind (`image`, `video`, `audio` or `file`). */
  datatype Media = Media(url: string, mediaType: string)

  /** `imageCache`: sender id to the URL of the last image. */
  type ImageCache = map<string, Entry<string>>

  /** `mediaCache`: sender id to the last media attachment of any supported kind. */
  type MediaCache = map<string, Entry<Media>>

  /**
   * One pass of the periodic sweep over one cache: an entry is deleted exactly
   * when it is more than `ttl` milliseconds old, so an entry exactly `ttl` old
   * survives; the entries kept are unchanged.
   */
  method Sweep<V>(cache: map<string, Entry<V>>, now: int, ttl: int) returns (r: map<string, Entry<V>>)
    ensures forall k :: k in r <==> k in cache && now - cache[k].timestamp <= ttl
    ensures forall k :: k in r ==> r[k] == cache[k]
  {
    r := cache;
    var pending := cache.Keys;
    while pending != {}
      invariant pending <= cache.Keys
      invariant forall k :: k in r <==> k in cache && (k in pending || now - cache[k].timestamp <= ttl)
      invariant forall k :: k in r ==> r[k] == cache[k]
      decreases pending
    {
      var k :| k in pending;
      if now - r[k].timestamp > ttl {
        r := r - {k};
      }
      pending := pending - {k};
    }
  }
}
