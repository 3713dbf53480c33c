/**
 * The message dispatcher (handles/handleMessage.js): the command registry
 * filled from the command modules' `name` exports, the two per-sender
 * attachment caches and their periodic sweep, and the rule that turns the
 * text of an inbound message into a handler call or a notice.
 *
 * Handlers are not run here: a call is recorded as an `Invoke` effect, and
 * whether the handler threw is an input (`HandlerOutcome`).  `sendMessage`
 * appends to the same ordered outbox.
 */
module Dispatch {
  import opened Wrappers
  import opened Text
  import opened Events
  import opened Caches

  /** `CACHE_TTL`: ten minutes in milliseconds, the sweep period and the sweep's age limit. */
  const CacheTtl: int := 10 * 60 * 1000

  /** `prefixes`, tried in this order. */
  const Prefixes: seq<char> := ['-', '/']

  const UnknownCommandNotice: string := "Unknown command. Type \"help\" for available commands."
  const FailureNotice: string := "‚ùå Command execution failed."

  // ---------------------------------------------------------------- registry

  /** One value of a module's `name` export: a string, or anything else. */
  datatype NameValue = Str(s: string) | NonString

  /** A module's `name` export: one value or an array of values. */
  datatype NameField = Single(value: NameValue) | Many(values: seq<NameValue>)

  /** A loaded command module: its `name` export and an identity for its `execute`. */
  datatype Descriptor = Descriptor(name: NameField, handler: nat)

  /** `Array.isArray(command.name) ? command.name : [command.name]` */
  function NameList(d: Descriptor): seq<NameValue> {
    match d.name
    case Single(v) => [v]
    case Many(vs) => vs
  }

  /** The registry keys a list of names yields: its string names, lowercased; the rest are skipped. */
  function Keys(vs: seq<NameValue>): (ks: seq<string>)
    ensures forall k :: k in ks ==> ToLower(k) == k
    ensures forall i :: 0 <= i < |vs| && vs[i].Str? ==> ToLower(vs[i].s) in ks
    ensures forall k :: k in ks ==> exists i :: 0 <= i < |vs| && vs[i].Str? && ToLower(vs[i].s) == k
  {
    if vs == [] then []
    else
      var ks0 := Keys(vs[..|vs| - 1]);
      var last := vs[|vs| - 1];
      assert forall i :: 0 <= i < |vs| - 1 ==> vs[..|vs| - 1][i] == vs[i];
      if last.Str? then
        ToLowerIdempotent(last.s);
        ks0 + [ToLower(last.s)]
      else ks0
  }

  lemma ToLowerIdempotent(s: string)
    ensures ToLower(ToLower(s)) == ToLower(s)
  {
  }

  /** The keys descriptor `d` claims when it is registered. */
  predicate Claims(d: Descriptor, k: string) {
    k in Keys(NameList(d))
  }

  /** `names.forEach(...)` for one module: each claimed key now maps to `d`. */
  function AddNames(reg: map<string, Descriptor>, vs: seq<NameValue>, d: Descriptor): map<string, Descriptor> {
    if vs == [] then reg
    else
      var r0 := AddNames(reg, vs[..|vs| - 1], d);
      var last := vs[|vs| - 1];
      if last.Str? then r0[ToLower(last.s) := d] else r0
  }

  /**
   * Registering one module maps each key its names yield to it, and keeps
   * every other key's binding.
   */
  lemma {:induction false} AddNamesSpec(reg: map<string, Descriptor>, vs: seq<NameValue>, d: Descriptor)
    ensures var r := AddNames(reg, vs, d);
      && (forall k :: k in r <==> k in reg || k in Keys(vs))
      && (forall k :: k in r ==> r[k] == if k in Keys(vs) then d else reg[k])
  {
    if vs != [] {
      AddNamesSpec(reg, vs[..|vs| - 1], d);
    }
  }

  /** `AddNamesSpec` at one key. */
  lemma AddNamesAt(reg: map<string, Descriptor>, vs: seq<NameValue>, d: Descriptor, k: string)
    ensures k in AddNames(reg, vs, d) <==> k in reg || k in Keys(vs)
    ensures k in AddNames(reg, vs, d) ==> AddNames(reg, vs, d)[k] == if k in Keys(vs) then d else reg[k]
  {
    AddNamesSpec(reg, vs, d);
  }

  /** The registry left by registering the modules `ds`, in order, on top of `reg`. */
  function Register(reg: map<string, Descriptor>, ds: seq<Descriptor>): map<string, Descriptor> {
    if ds == [] then reg
    else
      var last := ds[|ds| - 1];
      AddNames(Register(reg, ds[..|ds| - 1]), NameList(last), last)
  }

  /** Some module of `ds` claims key `k`. */
  predicate ClaimedIn(ds: seq<Descriptor>, k: string) {
    exists i :: 0 <= i < |ds| && Claims(ds[i], k)
  }

  /** A claim by a module before the last is a claim among those before it. */
  lemma ClaimedInEarlier(ds: seq<Descriptor>, k: string)
    requires ds != [] && ClaimedIn(ds, k) && !Claims(ds[|ds| - 1], k)
    ensures ClaimedIn(ds[..|ds| - 1], k)
  {
    var i :| 0 <= i < |ds| && Claims(ds[i], k);
    assert ds[..|ds| - 1][i] == ds[i];
  }

  /** A claim among the modules before the last is a claim in the whole list. */
  lemma ClaimedInLater(ds: seq<Descriptor>, k: string)
    requires ds != [] && ClaimedIn(ds[..|ds| - 1], k)
    ensures ClaimedIn(ds, k)
  {
    var i :| 0 <= i < |ds| - 1 && Claims(ds[..|ds| - 1][i], k);
    assert ds[..|ds| - 1][i] == ds[i];
  }

  /** A key is claimed by a list of modules when the last claims it or those before it do. */
  lemma ClaimedInSnoc(ds: seq<Descriptor>, k: string)
    requires ds != []
    ensures ClaimedIn(ds, k) <==> ClaimedIn(ds[..|ds| - 1], k) || Claims(ds[|ds| - 1], k)
  {
    var n := |ds| - 1;
    if ClaimedIn(ds, k) && !Claims(ds[n], k) {
      ClaimedInEarlier(ds, k);
    }
    if ClaimedIn(ds[..n], k) {
      ClaimedInLater(ds, k);
    }
    if Claims(ds[n], k) {
      assert 0 <= n < |ds| && Claims(ds[n], k);
    }
  }

  /** The registry's keys are the old keys and the keys some module claims; nothing else. */
  lemma {:induction false} RegisterKeys(reg: map<string, Descriptor>, ds: seq<Descriptor>, k: string)
    ensures k in Register(reg, ds) <==> k in reg || ClaimedIn(ds, k)
  {
    if ds != [] {
      var n := |ds| - 1;
      RegisterKeys(reg, ds[..n], k);
      AddNamesSpec(Register(reg, ds[..n]), NameList(ds[n]), ds[n]);
      ClaimedInSnoc(ds, k);
    }
  }

  /**
   * A key claimed by several modules maps to the last of them: a later module
   * overwrites an earlier one with the same (lowercased) name.
   */
  lemma {:induction false} RegisterLastWins(reg: map<string, Descriptor>, ds: seq<Descriptor>, k: string, j: nat)
    requires j < |ds| && Claims(ds[j], k)
    requires forall i :: j < i < |ds| ==> !Claims(ds[i], k)
    ensures k in Register(reg, ds) && Register(reg, ds)[k] == ds[j]
  {
    var n := |ds| - 1;
    var prev := Register(reg, ds[..n]);
    AddNamesAt(prev, NameList(ds[n]), ds[n], k);
    if j < n {
      var early := ds[..n];
      assert early[j] == ds[j];
      forall i | j < i < n ensures !Claims(early[i], k) {
        assert early[i] == ds[i];
      }
      RegisterLastWins(reg, early, k, j);
      assert !Claims(ds[n], k);
      assert Register(reg, ds)[k] == prev[k];
    }
  }

  /** A key no module claims keeps whatever `reg` had for it, or stays absent. */
  lemma {:induction false} RegisterUnclaimed(reg: map<string, Descriptor>, ds: seq<Descriptor>, k: string)
    requires forall i :: 0 <= i < |ds| ==> !Claims(ds[i], k)
    ensures k in Register(reg, ds) <==> k in reg
    ensures k in reg ==> Register(reg, ds)[k] == reg[k]
  {
    if ds != [] {
      var n := |ds| - 1;
      AddNamesSpec(Register(reg, ds[..n]), NameList(ds[n]), ds[n]);
      RegisterUnclaimed(reg, ds[..n], k);
    }
  }

  /** Every key maps to a module that claims it (so every key is lowercase). */
  predicate WellFormed(reg: map<string, Descriptor>) {
    forall k :: k in reg ==> Claims(reg[k], k)
  }

  /** Registration keeps the registry well formed: keys are lowercased names of their own module. */
  lemma {:induction false} RegisterWellFormed(reg: map<string, Descriptor>, ds: seq<Descriptor>)
    requires WellFormed(reg)
    ensures WellFormed(Register(reg, ds))
    ensures forall k :: k in Register(reg, ds) ==> ToLower(k) == k
  {
    if ds != [] {
      var n := |ds| - 1;
      RegisterWellFormed(reg, ds[..n]);
      AddNamesSpec(Register(reg, ds[..n]), NameList(ds[n]), ds[n]);
    }
  }

  // -------------------------------------------------------- attachment caching

  predicate HasUrl(a: Attachment) {
    Truthy(a.url)
  }

  /** An attachment that `imageCache` records. */
  predicate IsImage(a: Attachment) {
    a.kind == "image" && HasUrl(a)
  }

  /** What `mediaCache` records for an attachment, if anything. */
  function MediaOf(a: Attachment): Option<Media> {
    if a.kind in ["image", "video", "audio", "file"] && HasUrl(a) then Some(Media(a.url.value, a.kind)) else None
  }

  /**
   * `imageCache` after the attachments of one event from `id`, all stamped
   * `now`: no other sender's entry is added, removed or changed.
   */
  function CacheImages(cache: ImageCache, id: string, atts: seq<Attachment>, now: int): (r: ImageCache)
    ensures forall k :: k != id ==> (k in r <==> k in cache) && (k in r ==> r[k] == cache[k])
    ensures id in cache ==> id in r
  {
    if atts == [] then cache
    else
      var c := CacheImages(cache, id, atts[..|atts| - 1], now);
      var a := atts[|atts| - 1];
      if IsImage(a) then c[id := Entry(a.url.value, now)] else c
  }

  /**
   * `mediaCache` after the attachments of one event from `id`, all stamped
   * `now`: no other sender's entry is added, removed or changed.
   */
  function CacheMedia(cache: MediaCache, id: string, atts: seq<Attachment>, now: int): (r: MediaCache)
    ensures forall k :: k != id ==> (k in r <==> k in cache) && (k in r ==> r[k] == cache[k])
    ensures id in cache ==> id in r
  {
    if atts == [] then cache
    else
      var c := CacheMedia(cache, id, atts[..|atts| - 1], now);
      var m := MediaOf(atts[|atts| - 1]);
      if m.Some? then c[id := Entry(m.value, now)] else c
  }

  /** With several images in one event, `imageCache` holds the last one; no other sender changes. */
  lemma {:induction false} CacheImagesLast(cache: ImageCache, id: string, atts: seq<Attachment>, now: int, j: nat)
    requires j < |atts| && IsImage(atts[j])
    requires forall i :: j < i < |atts| ==> !IsImage(atts[i])
    ensures CacheImages(cache, id, atts, now) == cache[id := Entry(atts[j].url.value, now)]
  {
    var n := |atts| - 1;
    if j < n {
      assert forall i :: j < i < n ==> atts[..n][i] == atts[i];
      CacheImagesLast(cache, id, atts[..n], now, j);
      assert !IsImage(atts[n]);
    }
  }

  /** An event without a cacheable image leaves `imageCache` as it was. */
  lemma {:induction false} CacheImagesNone(cache: ImageCache, id: string, atts: seq<Attachment>, now: int)
    requires forall i :: 0 <= i < |atts| ==> !IsImage(atts[i])
    ensures CacheImages(cache, id, atts, now) == cache
  {
    if atts != [] {
      CacheImagesNone(cache, id, atts[..|atts| - 1], now);
    }
  }

  /** `mediaCache` holds the last attachment of a supported kind, with that kind; no other sender changes. */
  lemma {:induction false} CacheMediaLast(cache: MediaCache, id: string, atts: seq<Attachment>, now: int, j: nat)
    requires j < |atts| && MediaOf(atts[j]).Some?
    requires forall i :: j < i < |atts| ==> MediaOf(atts[i]).None?
    ensures CacheMedia(cache, id, atts, now) == cache[id := Entry(Media(atts[j].url.value, atts[j].kind), now)]
  {
    var n := |atts| - 1;
    if j < n {
      assert forall i :: j < i < n ==> atts[..n][i] == atts[i];
      CacheMediaLast(cache, id, atts[..n], now, j);
      assert MediaOf(atts[n]).None?;
    }
  }

  /** Attachments of other kinds, or without a URL, leave `mediaCache` as it was. */
  lemma {:induction false} CacheMediaNone(cache: MediaCache, id: string, atts: seq<Attachment>, now: int)
    requires forall i :: 0 <= i < |atts| ==> MediaOf(atts[i]).None?
    ensures CacheMedia(cache, id, atts, now) == cache
  {
    if atts != [] {
      CacheMediaNone(cache, id, atts[..|atts| - 1], now);
    }
  }

  // ------------------------------------------------------------ text dispatch

  /** The trimmed text with its leading prefix character removed, if it has one. */
  function Body(text: string): (r: string)
    ensures |text| - 1 <= |r| <= |text| && r == text[|text| - |r|..]
    ensures r != text <==> text != [] && text[0] in Prefixes
  {
    if text != [] && text[0] in Prefixes then text[1..] else text
  }

  /** The first token (not yet lowercased) and the remaining tokens. */
  datatype Parsed = Parsed(head: string, args: seq<string>)

  /**
   * `[commandName, ...args] = body.split(' ')`: tokens free of spaces that,
   * joined with single spaces, give back the body (so repeated spaces give
   * empty tokens).
   */
  function Parse(text: string): (p: Parsed)
    ensures ' ' !in p.head
    ensures forall i :: 0 <= i < |p.args| ==> ' ' !in p.args[i]
    ensures Join([p.head] + p.args, " ") == Body(text)
  {
    var parts := Split(Body(text), ' ');
    assert [parts[0]] + parts[1..] == parts;
    Parsed(parts[0], parts[1..])
  }

  /** Which cache a handler is given. */
  datatype CacheChoice = UsesImageCache | UsesMediaCache

  /** The outcome of resolving a message text. */
  datatype Route = Run(handler: Descriptor, args: seq<string>, cache: CacheChoice) | Unknown

  /** `command.name === 'getlink'` chooses `mediaCache`; every other module gets `imageCache`. */
  function CacheFor(d: Descriptor): (c: CacheChoice)
    ensures c == UsesMediaCache <==> d.name == Single(Str("getlink"))
  {
    if d.name == Single(Str("getlink")) then UsesMediaCache else UsesImageCache
  }

  /**
   * The registered command named by the first token, lowercased, with the
   * other tokens; else `ai` with the whole trimmed text; else nothing.
   */
  function Resolve(commands: map<string, Descriptor>, text: string): (r: Route)
    ensures r.Unknown? <==> ToLower(Parse(text).head) !in commands && "ai" !in commands
    ensures r.Run? && ToLower(Parse(text).head) in commands ==>
      r.handler == commands[ToLower(Parse(text).head)] && r.args == Parse(text).args
    ensures r.Run? && ToLower(Parse(text).head) !in commands ==>
      r.handler == commands["ai"] && r.args == [text] && r.cache == UsesImageCache
  {
    var p := Parse(text);
    var name := ToLower(p.head);
    if name in commands then Run(commands[name], p.args, CacheFor(commands[name]))
    else if "ai" in commands then Run(commands["ai"], [text], UsesImageCache)
    else Unknown
  }

  /**
   * In a registry built by registration, the handler run gets `mediaCache`
   * exactly when its `name` export is the string `getlink`; in particular the
   * `ai` fallback always gets `imageCache`.
   */
  lemma ResolveCache(commands: map<string, Descriptor>, text: string)
    requires WellFormed(commands)
    ensures var r := Resolve(commands, text);
      r.Run? ==> (r.cache == UsesMediaCache <==> r.handler.name == Single(Str("getlink")))
  {
    var name := ToLower(Parse(text).head);
    if name !in commands && "ai" in commands {
      assert Claims(commands["ai"], "ai");
    }
  }

  /** Tokens free of spaces that join back to the body are exactly what `Parse` returns. */
  lemma ParseUnique(text: string, head: string, args: seq<string>)
    requires ' ' !in head && forall i :: 0 <= i < |args| ==> ' ' !in args[i]
    requires Join([head] + args, " ") == Body(text)
    ensures Parse(text) == Parsed(head, args)
  {
    SplitJoin([head] + args, ' ');
  }

  /**
   * A prefixed command line: `-name arg…` or `/name arg…` runs the command
   * registered under the lowercased name with exactly those arguments, and
   * otherwise falls back to `ai` with the whole line (prefix included).
   */
  lemma ResolvePrefixed(commands: map<string, Descriptor>, c: char, name: string, args: seq<string>)
    requires c in Prefixes && ' ' !in name && forall i :: 0 <= i < |args| ==> ' ' !in args[i]
    ensures var text := [c] + Join([name] + args, " ");
      Resolve(commands, text) ==
        if ToLower(name) in commands then Run(commands[ToLower(name)], args, CacheFor(commands[ToLower(name)]))
        else if "ai" in commands then Run(commands["ai"], [text], UsesImageCache)
        else Unknown
  {
    var text := [c] + Join([name] + args, " ");
    assert Body(text) == Join([name] + args, " ");
    ParseUnique(text, name, args);
  }

  /**
   * Without a prefix the first word is looked up all the same: `name arg…`
   * behaves like its prefixed form, except that the `ai` fallback gets the
   * line as typed.
   */
  lemma ResolveUnprefixed(commands: map<string, Descriptor>, name: string, args: seq<string>)
    requires name != [] && name[0] !in Prefixes
    requires ' ' !in name && forall i :: 0 <= i < |args| ==> ' ' !in args[i]
    ensures var text := Join([name] + args, " ");
      Resolve(commands, text) ==
        if ToLower(name) in commands then Run(commands[ToLower(name)], args, CacheFor(commands[ToLower(name)]))
        else if "ai" in commands then Run(commands["ai"], [text], UsesImageCache)
        else Unknown
  {
    var text := Join([name] + args, " ");
    if args != [] {
      JoinCons(name, args, " ");
    }
    assert text[0] == name[0];
    ParseUnique(text, name, args);
  }

  /** Whether the invoked handler completed or threw (its work is outside this model). */
  datatype HandlerOutcome = Completed | Threw

  /** What the dispatcher does, in order: a handler call or a message sent. */
  datatype Effect =
    | Invoke(to: string, handler: Descriptor, args: seq<string>, cache: CacheChoice)
    | Send(to: string, text: string)

  /**
   * The effects of dispatching a non-blank trimmed text: all addressed to the
   * sender; a handler call, followed by exactly one failure notice when the
   * handler threw; or exactly one "Unknown command" notice and no call.
   */
  function DispatchEffects(commands: map<string, Descriptor>, id: string, text: string, outcome: HandlerOutcome): (r: seq<Effect>)
    ensures forall i :: 0 <= i < |r| ==> r[i].to == id
    ensures 1 <= |r| <= 2
    ensures r[0].Invoke? <==> Resolve(commands, text).Run?
    ensures r[0].Invoke? ==> Resolve(commands, text) == Run(r[0].handler, r[0].args, r[0].cache)
    ensures r[0].Send? ==> r == [Send(id, UnknownCommandNotice)]
    ensures |r| == 2 <==> r[0].Invoke? && outcome == Threw
    ensures |r| == 2 ==> r[1] == Send(id, FailureNotice)
  {
    match Resolve(commands, text)
    case Unknown => [Send(id, UnknownCommandNotice)]
    case Run(d, args, c) => [Invoke(id, d, args, c)] + (if outcome == Threw then [Send(id, FailureNotice)] else [])
  }

  /** The effects of the text part of an event: nothing when the text is missing or blank. */
  function TextEffects(commands: map<string, Descriptor>, id: string, text: Option<string>, outcome: HandlerOutcome): seq<Effect> {
    var t := if text.Some? then Trim(text.value) else [];
    if t == [] then [] else DispatchEffects(commands, id, t, outcome)
  }

  /** Missing or whitespace-only text causes no handler call and no message, and only that. */
  lemma BlankTextIsSilent(commands: map<string, Descriptor>, id: string, text: Option<string>, outcome: HandlerOutcome)
    ensures TextEffects(commands, id, text, outcome) == [] <==> text.None? || IsBlank(text.value)
  {
  }

  // ------------------------------------------------------------- the module

  /** The module-level state of handles/handleMessage.js and its `sendMessage` outbox. */
  class Bot {
    var commands: map<string, Descriptor>
    var imageCache: ImageCache
    var mediaCache: MediaCache
    var outbox: seq<Effect>

    constructor ()
      ensures commands == map[] && imageCache == map[] && mediaCache == map[] && outbox == []
    {
      commands := map[];
      imageCache := map[];
      mediaCache := map[];
      outbox := [];
    }

    /** `loadCommands` over the modules found, in directory order. */
    method LoadCommands(ds: seq<Descriptor>)
      modifies this`commands
      ensures commands == Register(old(commands), ds)
    {
      var i := 0;
      while i < |ds|
        invariant 0 <= i <= |ds|
        invariant commands == Register(old(commands), ds[..i])
      {
        var command := ds[i];
        var names := NameList(command);
        ghost var before := commands;
        var j := 0;
        while j < |names|
          invariant 0 <= j <= |names|
          invariant commands == AddNames(before, names[..j], command)
        {
          if names[j].Str? {
            commands := commands[ToLower(names[j].s) := command];
          }
          assert names[..j + 1][..j] == names[..j];
          j := j + 1;
        }
        assert names[..j] == names;
        assert ds[..i + 1][..i] == ds[..i];
        i := i + 1;
      }
      assert ds[..i] == ds;
    }

    /** The body of the periodic sweep, run at time `now`. */
    method SweepCaches(now: int)
      modifies this`imageCache, this`mediaCache
      ensures forall k :: k in imageCache <==> k in old(imageCache) && now - old(imageCache)[k].timestamp <= CacheTtl
      ensures forall k :: k in imageCache ==> imageCache[k] == old(imageCache)[k]
      ensures forall k :: k in mediaCache <==> k in old(mediaCache) && now - old(mediaCache)[k].timestamp <= CacheTtl
      ensures forall k :: k in mediaCache ==> mediaCache[k] == old(mediaCache)[k]
    {
      imageCache := Sweep(imageCache, now, CacheTtl);
      mediaCache := Sweep(mediaCache, now, CacheTtl);
    }

    /** `handleMessage(event)` at time `now`, the invoked handler ending as `outcome` says. */
    method HandleMessage(event: Event, now: int, outcome: HandlerOutcome)
      modifies this`imageCache, this`mediaCache, this`outbox
      ensures !Truthy(event.senderId) ==>
        imageCache == old(imageCache) && mediaCache == old(mediaCache) && outbox == old(outbox)
      ensures Truthy(event.senderId) ==>
        && imageCache == CacheImages(old(imageCache), event.senderId.value, AttachmentsOf(event), now)
        && mediaCache == CacheMedia(old(mediaCache), event.senderId.value, AttachmentsOf(event), now)
        && outbox == old(outbox) + TextEffects(commands, event.senderId.value, TextOf(event), outcome)
    {
      if !Truthy(event.senderId) {
        return;
      }
      var senderId := event.senderId.value;
      var text := TextOf(event);
      CacheAttachments(senderId, AttachmentsOf(event), now);
      var messageText := if text.Some? then Trim(text.value) else [];
      if messageText == [] {
        assert outbox == old(outbox) + [];
        return;
      }
      DispatchText(senderId, messageText, outcome);
    }

    /** The attachment loop of `handleMessage`. */
    method CacheAttachments(senderId: string, attachments: seq<Attachment>, now: int)
      modifies this`imageCache, this`mediaCache
      ensures imageCache == CacheImages(old(imageCache), senderId, attachments, now)
      ensures mediaCache == CacheMedia(old(mediaCache), senderId, attachments, now)
    {
      var i := 0;
      while i < |attachments|
        invariant 0 <= i <= |attachments|
        invariant imageCache == CacheImages(old(imageCache), senderId, attachments[..i], now)
        invariant mediaCache == CacheMedia(old(mediaCache), senderId, attachments[..i], now)
      {
        var attachment := attachments[i];
        if attachment.kind == "image" && HasUrl(attachment) {
          imageCache := imageCache[senderId := Entry(attachment.url.value, now)];
          mediaCache := mediaCache[senderId := Entry(Media(attachment.url.value, "image"), now)];
        } else if attachment.kind == "video" && HasUrl(attachment) {
          mediaCache := mediaCache[senderId := Entry(Media(attachment.url.value, "video"), now)];
        } else if attachment.kind == "audio" && HasUrl(attachment) {
          mediaCache := mediaCache[senderId := Entry(Media(attachment.url.value, "audio"), now)];
        } else if attachment.kind == "file" && HasUrl(attachment) {
          mediaCache := mediaCache[senderId := Entry(Media(attachment.url.value, "file"), now)];
        }
        assert attachments[..i + 1][..i] == attachments[..i];
        i := i + 1;
      }
      assert attachments[..i] == attachments;
    }

    /** Prefix parsing, command resolution, cache selection and the error notice of `handleMessage`. */
    method DispatchText(senderId: string, messageText: string, outcome: HandlerOutcome)
      requires messageText != []
      modifies this`outbox
      ensures outbox == old(outbox) + DispatchEffects(commands, senderId, messageText, outcome)
    {
      var route := ResolveText(messageText);
      match route
      case Run(command, args, cache) =>
        outbox := outbox + [Invoke(senderId, command, args, cache)];
        if outcome == Threw {
          outbox := outbox + [Send(senderId, FailureNotice)];
        }
      case Unknown =>
        outbox := outbox + [Send(senderId, UnknownCommandNotice)];
    }

    /** The prefix check, the split, the lookup and the cache choice of `handleMessage`. */
    method ResolveText(messageText: string) returns (route: Route)
      requires messageText != []
      ensures route == Resolve(commands, messageText)
    {
      var usedPrefix := messageText[0] in Prefixes;
      var tokens := Split(if usedPrefix then messageText[1..] else messageText, ' ');
      var commandName, args := tokens[0], tokens[1..];
      var normalizedCommand := ToLower(commandName);
      assert Parse(messageText) == Parsed(commandName, args);

      if normalizedCommand in commands {
        var command := commands[normalizedCommand];
        if command.name == Single(Str("getlink")) {
          route := Run(command, args, UsesMediaCache);
        } else {
          route := Run(command, args, UsesImageCache);
        }
      } else if "ai" in commands {
        route := Run(commands["ai"], [messageText], UsesImageCache);
      } else {
        route := Unknown;
      }
    }
  }
}
