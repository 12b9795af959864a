/**
 * The two event handlers: Discord messages in monitored channels are relayed
 * to the bot account, and every Telegram message with text is relayed to
 * each target channel. Each handler is a method over its own store, proved
 * against a function that states what the event does.
 */
module Handlers {
  import opened Wrappers
  import opened AddressDetection
  import opened AddressStore
  import opened Relay

  /** One entry of `discord.server_channels`: server ids mapped to monitored channel ids. */
  type ServerConfig = map<string, seq<string>>

  /** What a handler has done: sends and store so far, and the ids the pair lookup was asked about. */
  datatype Outcome = Outcome(progress: Progress, lookups: seq<string>)

  /**
   * The server id as a property name: a message outside a server has none,
   * which reads as `"undefined"`, the same key as a server of that id.
   */
  function ServerKey(guildId: Option<string>): (key: string)
    ensures guildId.Some? ==> key == guildId.value
    ensures key == "undefined" <==> guildId.None? || guildId == Some("undefined")
  {
    match guildId
    case None => "undefined"
    case Some(id) => id
  }

  /** `serverId in serverConfig && serverConfig[serverId].includes(channelId)`. */
  predicate Monitors(cfg: ServerConfig, key: string, channel: string)
    ensures Monitors(cfg, key, channel) <==>
      key in cfg && exists i :: 0 <= i < |cfg[key]| && cfg[key][i] == channel
  {
    key in cfg && channel in cfg[key]
  }

  /**
   * Extraction followed by the relay loop, as both handlers run it: a
   * non-empty result is relayed with the skip test as written; an empty one
   * touches neither the store nor the network. The lookup is asked about the
   * captured id, if any; the trace only grows, and the store keeps its keys
   * and gains only extracted addresses.
   */
  function ExtractAndRelay(o: Outcome, message: string, lookup: string -> LookupResult, dests: seq<string>,
                           send: (string, string, nat) -> bool, clock: nat -> int): (r: Outcome)
    ensures r.lookups == o.lookups + ToSeq(DexCapture(message))
    ensures |o.progress.trace| <= |r.progress.trace|
    ensures o.progress.entries.Keys <= r.progress.entries.Keys
    ensures forall b :: b in r.progress.entries ==> b in o.progress.entries || b in Detect(message, lookup).addresses
  {
    var d := Detect(message, lookup);
    Outcome(if |d.addresses| > 0 then RelayEach(SentinelOne, o.progress, d.addresses, dests, send, clock) else o.progress,
            o.lookups + ToSeq(d.queried))
  }

  /**
   * The Discord handler from `o` on: extraction and relay once per server
   * entry that monitors the channel, so at most one lookup per entry, and
   * earlier lookups and attempts kept.
   */
  function DiscordFrom(o: Outcome, servers: seq<ServerConfig>, key: string, channel: string, content: string,
                       lookup: string -> LookupResult, bot: string,
                       send: (string, string, nat) -> bool, clock: nat -> int): (r: Outcome)
    ensures o.lookups <= r.lookups && |r.lookups| <= |o.lookups| + |servers|
    ensures |o.progress.trace| <= |r.progress.trace|
    decreases |servers|
  {
    if servers == [] then o
    else
      var next := if Monitors(servers[0], key, channel) then ExtractAndRelay(o, content, lookup, [bot], send, clock) else o;
      DiscordFrom(next, servers[1..], key, channel, content, lookup, bot, send, clock)
  }

  /**
   * The Telegram handler: a message with non-empty text is extracted and
   * relayed to every target; one event makes at most one lookup.
   */
  function TelegramFrom(o: Outcome, text: Option<string>, targets: seq<string>, lookup: string -> LookupResult,
                        send: (string, string, nat) -> bool, clock: nat -> int): (r: Outcome)
    ensures o.lookups <= r.lookups && |r.lookups| <= |o.lookups| + 1
    ensures |o.progress.trace| <= |r.progress.trace|
  {
    if text.Some? && text.value != "" then ExtractAndRelay(o, text.value, lookup, targets, send, clock) else o
  }

  /**
   * The Discord relay loop: each address the skip test lets through is sent
   * to the bot once and saved if the send went through.
   */
  method RelayToBot(store: TrackedAddresses, addrs: seq<string>, bot: string, trace0: seq<Attempt>,
                    send: (string, string, nat) -> bool, clock: nat -> int)
    returns (trace: seq<Attempt>)
    modifies store
    ensures Progress(trace, store.entries) ==
      RelayEach(SentinelOne, Progress(trace0, old(store.entries)), addrs, [bot], send, clock)
  {
    trace := trace0;
    for j := 0 to |addrs|
      invariant RelayEach(SentinelOne, Progress(trace, store.entries), addrs[j..], [bot], send, clock) ==
                RelayEach(SentinelOne, Progress(trace0, old(store.entries)), addrs, [bot], send, clock)
    {
      var address := addrs[j];
      ghost var p := Progress(trace, store.entries);
      assert addrs[j..][1..] == addrs[j + 1..];
      if store.Timestamp(address) != Some(1) {
        var k := |trace|;
        var ok := send(bot, address, k);
        trace := trace + [Attempt(bot, address, ok)];
        if ok {
          store.Save(address, clock(k));
        }
        assert Progress(trace, store.entries) == Step(p, bot, address, send, clock);
        assert SendEach(p, [bot], address, send, clock) == SendEach(Step(p, bot, address, send, clock), [], address, send, clock);
      }
    }
  }

  /**
   * The `messageCreate` handler: for each server entry monitoring the
   * channel, extract, and relay a non-empty result to the bot.
   */
  method OnDiscordMessage(store: TrackedAddresses, servers: seq<ServerConfig>, bot: string,
                          guildId: Option<string>, channelId: string, content: string,
                          lookup: string -> LookupResult,
                          send: (string, string, nat) -> bool, clock: nat -> int)
    returns (trace: seq<Attempt>, lookups: seq<string>)
    modifies store
    ensures Outcome(Progress(trace, store.entries), lookups) ==
      DiscordFrom(Outcome(Progress([], old(store.entries)), []), servers, ServerKey(guildId), channelId, content,
                  lookup, bot, send, clock)
  {
    var serverId := ServerKey(guildId);
    trace, lookups := [], [];
    for i := 0 to |servers|
      invariant DiscordFrom(Outcome(Progress(trace, store.entries), lookups), servers[i..], serverId, channelId,
                            content, lookup, bot, send, clock) ==
                DiscordFrom(Outcome(Progress([], old(store.entries)), []), servers, serverId, channelId, content,
                            lookup, bot, send, clock)
    {
      assert servers[i..][1..] == servers[i + 1..];
      if Monitors(servers[i], serverId, channelId) {
        var d := Detect(content, lookup);
        lookups := lookups + ToSeq(d.queried);
        if |d.addresses| > 0 {
          trace := RelayToBot(store, d.addresses, bot, trace, send, clock);
        }
      }
    }
  }

  /**
   * The Telegram relay loop: each address the skip test lets through is sent
   * to every target channel in turn and saved after each send that went
   * through; a failed send moves on to the next channel.
   */
  method RelayToChannels(store: TrackedAddresses, addrs: seq<string>, targets: seq<string>, trace0: seq<Attempt>,
                         send: (string, string, nat) -> bool, clock: nat -> int)
    returns (trace: seq<Attempt>)
    modifies store
    ensures Progress(trace, store.entries) ==
      RelayEach(SentinelOne, Progress(trace0, old(store.entries)), addrs, targets, send, clock)
  {
    trace := trace0;
    for j := 0 to |addrs|
      invariant RelayEach(SentinelOne, Progress(trace, store.entries), addrs[j..], targets, send, clock) ==
                RelayEach(SentinelOne, Progress(trace0, old(store.entries)), addrs, targets, send, clock)
    {
      var address := addrs[j];
      assert addrs[j..][1..] == addrs[j + 1..];
      if store.Timestamp(address) != Some(1) {
        ghost var p := Progress(trace, store.entries);
        for t := 0 to |targets|
          invariant SendEach(Progress(trace, store.entries), targets[t..], address, send, clock) ==
                    SendEach(p, targets, address, send, clock)
        {
          ghost var q := Progress(trace, store.entries);
          var k := |trace|;
          var ok := send(targets[t], address, k);
          trace := trace + [Attempt(targets[t], address, ok)];
          if ok {
            store.Save(address, clock(k));
          }
          assert Progress(trace, store.entries) == Step(q, targets[t], address, send, clock);
          assert targets[t..][1..] == targets[t + 1..];
        }
      }
    }
  }

  /** The Telegram handler: a message with non-empty text is extracted and a non-empty result relayed. */
  method OnTelegramEvent(store: TrackedAddresses, targets: seq<string>, text: Option<string>,
                         lookup: string -> LookupResult,
                         send: (string, string, nat) -> bool, clock: nat -> int)
    returns (trace: seq<Attempt>, lookups: seq<string>)
    modifies store
    ensures Outcome(Progress(trace, store.entries), lookups) ==
      TelegramFrom(Outcome(Progress([], old(store.entries)), []), text, targets, lookup, send, clock)
  {
    trace, lookups := [], [];
    if text.Some? && text.value != "" {
      var d := Detect(text.value, lookup);
      lookups := ToSeq(d.queried);
      if |d.addresses| > 0 {
        trace := RelayToChannels(store, d.addresses, targets, trace, send, clock);
      }
    }
  }

  // ---------------------------------------------------------------------
  // What the Discord handler does
  // ---------------------------------------------------------------------

  /** How many server entries monitor the channel. */
  function Monitoring(servers: seq<ServerConfig>, key: string, channel: string): (n: nat)
    ensures n <= |servers|
    ensures n == 0 <==> forall i :: 0 <= i < |servers| ==> !Monitors(servers[i], key, channel)
    decreases |servers|
  {
    if servers == [] then 0
    else
      var rest := Monitoring(servers[1..], key, channel);
      assert forall i :: 1 <= i < |servers| ==> servers[i] == servers[1..][i - 1];
      (if Monitors(servers[0], key, channel) then 1 else 0) + rest
  }

  /** `n` copies of `s`, one after another. */
  function Repeat<T>(s: seq<T>, n: nat): (r: seq<T>)
    ensures |r| == n * |s|
  {
    if n == 0 then [] else s + Repeat(s, n - 1)
  }

  /** Sequence concatenation regroups; stated apart so the handler proofs use it without unfolding. */
  lemma ConcatAssoc<T>(a: seq<T>, b: seq<T>, c: seq<T>)
    ensures (a + b) + c == a + (b + c)
  {
  }

  /** Appending nothing leaves a sequence as it is. */
  lemma ConcatEmpty<T>(a: seq<T>)
    ensures a + [] == a
  {
  }

  /** A channel no entry monitors: nothing is extracted, looked up, sent or saved. */
  lemma {:induction false} DiscordIgnoresUnmonitored(o: Outcome, servers: seq<ServerConfig>, key: string, channel: string,
                                                    content: string, lookup: string -> LookupResult, bot: string,
                                                    send: (string, string, nat) -> bool, clock: nat -> int)
    requires Monitoring(servers, key, channel) == 0
    ensures DiscordFrom(o, servers, key, channel, content, lookup, bot, send, clock) == o
    decreases |servers|
  {
    if servers != [] {
      assert !Monitors(servers[0], key, channel);
      DiscordIgnoresUnmonitored(o, servers[1..], key, channel, content, lookup, bot, send, clock);
    }
  }

  /**
   * Each monitoring entry runs the extraction again: the captured id of a
   * listing URL is looked up once per such entry, and nothing is looked up
   * without one.
   */
  lemma {:induction false} DiscordLooksUpPerEntry(o: Outcome, servers: seq<ServerConfig>, key: string, channel: string,
                                                 content: string, lookup: string -> LookupResult, bot: string,
                                                 send: (string, string, nat) -> bool, clock: nat -> int)
    ensures DiscordFrom(o, servers, key, channel, content, lookup, bot, send, clock).lookups ==
      o.lookups + Repeat(ToSeq(DexCapture(content)), Monitoring(servers, key, channel))
    decreases |servers|
  {
    if servers != [] {
      var next := if Monitors(servers[0], key, channel) then ExtractAndRelay(o, content, lookup, [bot], send, clock) else o;
      DiscordLooksUpPerEntry(next, servers[1..], key, channel, content, lookup, bot, send, clock);
      var once := ToSeq(DexCapture(content));
      assert Detect(content, lookup).queried == DexCapture(content);
      if Monitors(servers[0], key, channel) {
        assert next.lookups == o.lookups + once;
        assert Repeat(once, Monitoring(servers, key, channel)) == once + Repeat(once, Monitoring(servers[1..], key, channel));
      }
    }
  }

  /**
   * The Discord handler sends only to the bot and only addresses the
   * extractor returned; it records an address exactly when a send of it went
   * through, and never changes a reading already stored.
   */
  lemma {:induction false} DiscordShape(o: Outcome, servers: seq<ServerConfig>, key: string, channel: string,
                                       content: string, lookup: string -> LookupResult, bot: string,
                                       send: (string, string, nat) -> bool, clock: nat -> int)
    ensures Extends(o.progress, DiscordFrom(o, servers, key, channel, content, lookup, bot, send, clock).progress,
                    Detect(content, lookup).addresses, [bot])
    decreases |servers|
  {
    var addrs := Detect(content, lookup).addresses;
    if servers == [] {
      ExtendsRefl(o.progress, addrs, [bot]);
    } else {
      var next := if Monitors(servers[0], key, channel) then ExtractAndRelay(o, content, lookup, [bot], send, clock) else o;
      if next.progress == o.progress {
        ExtendsRefl(o.progress, addrs, [bot]);
      } else {
        RelayEachShape(SentinelOne, o.progress, addrs, [bot], send, clock);
      }
      DiscordShape(next, servers[1..], key, channel, content, lookup, bot, send, clock);
      ExtendsTrans(o.progress, next.progress,
                   DiscordFrom(o, servers, key, channel, content, lookup, bot, send, clock).progress, addrs, [bot]);
    }
  }

  /**
   * With the clock never reading 1, one extraction and relay sends every
   * extracted address to every destination, and keeps the sentinel out of
   * the store.
   */
  lemma {:induction false} ExtractAndRelaySendsAll(o: Outcome, message: string, lookup: string -> LookupResult,
                                                  dests: seq<string>,
                                                  send: (string, string, nat) -> bool, clock: nat -> int)
    requires NoSentinel(o.progress.entries)
    requires forall k :: clock(k) != 1
    ensures Targets(ExtractAndRelay(o, message, lookup, dests, send, clock).progress.trace) ==
      Targets(o.progress.trace) + Plan(Detect(message, lookup).addresses, dests)
    ensures NoSentinel(ExtractAndRelay(o, message, lookup, dests, send, clock).progress.entries)
  {
    var addrs := Detect(message, lookup).addresses;
    SentinelNeverSkips(o.progress, addrs, dests, send, clock);
    if addrs == [] {
      assert Plan(addrs, dests) == [];
    }
  }

  /** With the clock never reading 1, the Discord handler keeps the sentinel out of the store. */
  lemma {:induction false} DiscordKeepsNoSentinel(o: Outcome, servers: seq<ServerConfig>, key: string, channel: string,
                                                 content: string, lookup: string -> LookupResult, bot: string,
                                                 send: (string, string, nat) -> bool, clock: nat -> int)
    requires NoSentinel(o.progress.entries)
    requires forall k :: clock(k) != 1
    ensures NoSentinel(DiscordFrom(o, servers, key, channel, content, lookup, bot, send, clock).progress.entries)
    decreases |servers|
  {
    if servers != [] {
      var next := if Monitors(servers[0], key, channel) then ExtractAndRelay(o, content, lookup, [bot], send, clock) else o;
      if Monitors(servers[0], key, channel) {
        ExtractAndRelaySendsAll(o, content, lookup, [bot], send, clock);
      }
      DiscordKeepsNoSentinel(next, servers[1..], key, channel, content, lookup, bot, send, clock);
    }
  }

  /**
   * With the clock never reading 1, every monitoring entry sends every
   * extracted address to the bot once more: the attempts are the extraction
   * result, addressed to the bot, repeated once per monitoring entry.
   */
  lemma {:induction false} DiscordSendsPerEntry(o: Outcome, servers: seq<ServerConfig>, key: string, channel: string,
                                               content: string, lookup: string -> LookupResult, bot: string,
                                               send: (string, string, nat) -> bool, clock: nat -> int)
    requires NoSentinel(o.progress.entries)
    requires forall k :: clock(k) != 1
    ensures Targets(DiscordFrom(o, servers, key, channel, content, lookup, bot, send, clock).progress.trace) ==
      Targets(o.progress.trace) + Repeat(Plan(Detect(content, lookup).addresses, [bot]), Monitoring(servers, key, channel))
    decreases |servers|
  {
    if servers == [] {
      ConcatEmpty(Targets(o.progress.trace));
    } else {
      var once := Plan(Detect(content, lookup).addresses, [bot]);
      var m := Monitoring(servers[1..], key, channel);
      if Monitors(servers[0], key, channel) {
        var next := ExtractAndRelay(o, content, lookup, [bot], send, clock);
        ExtractAndRelaySendsAll(o, content, lookup, [bot], send, clock);
        DiscordSendsPerEntry(next, servers[1..], key, channel, content, lookup, bot, send, clock);
        calc {
          Targets(DiscordFrom(o, servers, key, channel, content, lookup, bot, send, clock).progress.trace);
          Targets(DiscordFrom(next, servers[1..], key, channel, content, lookup, bot, send, clock).progress.trace);
          Targets(next.progress.trace) + Repeat(once, m);
          (Targets(o.progress.trace) + once) + Repeat(once, m);
          { ConcatAssoc(Targets(o.progress.trace), once, Repeat(once, m)); }
          Targets(o.progress.trace) + (once + Repeat(once, m));
          Targets(o.progress.trace) + Repeat(once, 1 + m);
        }
        assert Monitoring(servers, key, channel) == 1 + m;
      } else {
        DiscordSendsPerEntry(o, servers[1..], key, channel, content, lookup, bot, send, clock);
        assert Monitoring(servers, key, channel) == m;
        assert DiscordFrom(o, servers, key, channel, content, lookup, bot, send, clock) ==
               DiscordFrom(o, servers[1..], key, channel, content, lookup, bot, send, clock);
      }
    }
  }

  /** The message used below: a listing URL for `id` between two words. */
  function ListingMessage(id: string): string
  {
    "check https://" + DexPrefix + id + " token"
  }

  /** When its lookup fails, the extractor returns the id of the listing URL, after asking about it. */
  lemma {:induction false} ListingIdDetected(id: string, lookup: string -> LookupResult)
    requires IsCandidate(id) && lookup(id) == Throws
    ensures Detect(ListingMessage(id), lookup) == Detection([id], Some(id))
  {
    var content := ListingMessage(id);
    assert forall i :: 0 <= i < |"check https://"| ==> "check https://"[i] != 'd';
    assert content == "check https://" + DexPrefix + id + " " + "token";
    DexCaptureOfUrl("check https://", id, "token");
    DetectLookupFailed(content, lookup);
  }

  /**
   * A message with a listing URL whose lookup fails, in a channel one entry
   * monitors: the captured id is looked up once and sent once, to the bot.
   */
  lemma {:induction false} DiscordRelaysListingId(cfg: ServerConfig, key: string, channel: string, id: string,
                                                 lookup: string -> LookupResult, bot: string,
                                                 send: (string, string, nat) -> bool, clock: nat -> int,
                                                 entries: map<string, int>)
    requires Monitors(cfg, key, channel) && IsCandidate(id) && lookup(id) == Throws
    requires NoSentinel(entries)
    ensures DiscordFrom(Outcome(Progress([], entries), []), [cfg], key, channel, ListingMessage(id), lookup, bot, send, clock)
            == Outcome(Progress([Attempt(bot, id, send(bot, id, 0))],
                                if send(bot, id, 0) then Inserted(entries, id, clock(0)) else entries),
                       [id])
  {
    ListingIdDetected(id, lookup);
    var p := Progress([], entries);
    var q := Step(p, bot, id, send, clock);
    assert SendEach(p, [bot], id, send, clock) == SendEach(q, [], id, send, clock) == q;
    assert RelayEach(SentinelOne, p, [id], [bot], send, clock) == RelayEach(SentinelOne, q, [], [bot], send, clock) == q;
    var o := Outcome(p, []);
    assert ExtractAndRelay(o, ListingMessage(id), lookup, [bot], send, clock) == Outcome(q, [id]);
    assert [cfg][1..] == [];
  }

  // ---------------------------------------------------------------------
  // What the Telegram handler does
  // ---------------------------------------------------------------------

  /** An event without text, or with empty text, does nothing. */
  lemma {:induction false} TelegramIgnoresEmpty(o: Outcome, text: Option<string>, targets: seq<string>,
                                               lookup: string -> LookupResult,
                                               send: (string, string, nat) -> bool, clock: nat -> int)
    requires text.None? || text.value == ""
    ensures TelegramFrom(o, text, targets, lookup, send, clock) == o
  {
  }

  /** An extraction that finds nothing sends nothing and leaves the store alone. */
  lemma {:induction false} NothingFoundNothingSent(o: Outcome, message: string, lookup: string -> LookupResult,
                                                  dests: seq<string>,
                                                  send: (string, string, nat) -> bool, clock: nat -> int)
    requires !HasLongRun(message)
    ensures ExtractAndRelay(o, message, lookup, dests, send, clock) == o
  {
    DetectWithoutLongRun(message, lookup);
  }

  /**
   * With the clock never reading 1, a Telegram message's addresses are each
   * sent to every target channel, in extraction order and then target order,
   * whatever earlier sends returned; an address is recorded exactly when one
   * of its sends went through.
   */
  lemma {:induction false} TelegramFansOut(o: Outcome, text: string, targets: seq<string>,
                                          lookup: string -> LookupResult,
                                          send: (string, string, nat) -> bool, clock: nat -> int)
    requires text != ""
    requires NoSentinel(o.progress.entries)
    requires forall k :: clock(k) != 1
    ensures Targets(TelegramFrom(o, Some(text), targets, lookup, send, clock).progress.trace) ==
      Targets(o.progress.trace) + Plan(Detect(text, lookup).addresses, targets)
    ensures Extends(o.progress, TelegramFrom(o, Some(text), targets, lookup, send, clock).progress,
                    Detect(text, lookup).addresses, targets)
    ensures TelegramFrom(o, Some(text), targets, lookup, send, clock).lookups == o.lookups + ToSeq(DexCapture(text))
  {
    var addrs := Detect(text, lookup).addresses;
    ExtractAndRelaySendsAll(o, text, lookup, targets, send, clock);
    if addrs == [] {
      ExtendsRefl(o.progress, addrs, targets);
    } else {
      RelayEachShape(SentinelOne, o.progress, addrs, targets, send, clock);
    }
  }
}
