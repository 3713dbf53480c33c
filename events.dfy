/**
 * The inbound webhook event as the handlers read it:
 * `{ sender: { id }, message: { text, mid, reply_to: { mid }, attachments } }`.
 * Every level may be missing, as the optional chaining in the handlers allows.
 */
module Events {
  import opened Wrappers

  /** One inbound attachment: its declared `type` and its `payload.url`, if any. */
  datatype Attachment = Attachment(kind: string, url: Option<string>)

  datatype ReplyTo = ReplyTo(mid: Option<string>)

  datatype Message = Message(
    text: Option<string>,
    mid: Option<string>,
    replyTo: Option<ReplyTo>,
    attachments: Option<seq<Attachment>>)

  datatype Event = Event(senderId: Option<string>, message: Option<Message>)

  /** JavaScript truthiness of an optional string: present and non-empty. */
  predicate Truthy(s: Option<string>) {
    s.Some? && s.value != ""
  }

  /** `event?.message?.text` */
  function TextOf(e: Event): Option<string> {
    if e.message.Some? then e.message.value.text else None
  }

  /** `event?.message?.attachments || []` */
  function AttachmentsOf(e: Event): seq<Attachment> {
    if e.message.Some? && e.message.value.attachments.Some? then e.message.value.attachments.value else []
  }

  /** `event?.message?.mid` */
  function MidOf(e: Event): Option<string> {
    if e.message.Some? then e.message.value.mid else None
  }

  /** `event?.message?.reply_to?.mid` */
  function ReplyMidOf(e: Event): Option<string> {
    if e.message.Some? && e.message.value.replyTo.Some? then e.message.value.replyTo.value.mid else None
  }

  /** A media object of the Graph API listing (`image_data`, `video_data`, `audio_data`): its `url`, if any. */
  datatype MediaData = MediaData(url: Option<string>)

  /** One element of a message's attachment listing (`data.data[i]`); absent objects are `None`. */
  datatype GraphItem = GraphItem(
    imageData: Option<MediaData>,
    videoData: Option<MediaData>,
    audioData: Option<MediaData>,
    fileUrl: Option<string>)

  /**
   * What `GET /{mid}/attachments` yields: a failed request, or the listing
   * `data.data` (a body without that array reads as an empty listing).
   */
  datatype GraphReply = Failed | Listing(items: seq<GraphItem>)

  /** `data?.data?.[0]` */
  function FirstItem(r: GraphReply): Option<GraphItem> {
    if r.Listing? && r.items != [] then Some(r.items[0]) else None
  }

  /** A message the bot sends back to the sender: text, or an image attachment by URL. */
  datatype Outgoing = TextReply(text: string) | ImageReply(url: string)
}
