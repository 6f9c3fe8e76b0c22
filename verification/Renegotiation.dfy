/**
 * What a renegotiation announces to the receiver is what the relay sends to it: `handle_renegotiate` in
 * src/protocol/protocol.rs, from the printed a=ssrc line to the RTP header.
 */
module Renegotiation {
  import opened Basics
  import opened MediaPeers
  import opened Relay
  import opened Bits
  import Text
  import Server = FloorServer
  import P = SdpParse
  import A = SdpAnswer
  import R = SdpReparse
  import N = SdpRenego

  predicate DistinctMids(entries: seq<MidMapEntry>) {
    forall i, j :: 0 <= i < j < |entries| ==> entries[i].mid != entries[j].mid
  }

  lemma LookupAppendOne(mappings: seq<SsrcMapping>, m: SsrcMapping)
    ensures N.LookupOf(mappings + [m]) == N.LookupOf(mappings)[m.mid := m.ssrc]
  {
    assert (mappings + [m])[..|mappings|] == mappings;
  }

  predicate Names(entries: seq<MidMapEntry>, mid: string) {
    exists i :: 0 <= i < |entries| && entries[i].mid == mid && TrackKindOf(entries[i].kind).Some?
  }

  lemma NamesSnoc(entries: seq<MidMapEntry>, e: MidMapEntry, mid: string)
    ensures Names(entries + [e], mid) <==> Names(entries, mid) || (e.mid == mid && TrackKindOf(e.kind).Some?)
  {
    var all := entries + [e];
    if Names(entries, mid) {
      var i :| 0 <= i < |entries| && entries[i].mid == mid && TrackKindOf(entries[i].kind).Some?;
      assert all[i] == entries[i];
    }
    assert all[|entries|] == e;
  }

  /** The collected map has the mids of the audio and video entries. */
  lemma {:induction false} LookupKeys(entries: seq<MidMapEntry>, receiver: UserId, consumers: Consumers, mid: string)
    requires AllAllocated(entries, receiver, consumers)
    ensures mid in N.LookupOf(MappingsOf(entries, receiver, consumers)) <==> Names(entries, mid)
  {
    if entries != [] {
      hide N.LookupOf, Names;
      var n := |entries| - 1;
      var before, last := entries[..n], entries[n];
      var mappings := MappingsOf(before, receiver, consumers);
      LookupKeys(before, receiver, consumers, mid);
      NamesSnoc(before, last, mid);
      assert before + [last] == entries;
      if TrackKindOf(last.kind).Some? {
        LookupAppendOne(mappings, MappingOf(last, receiver, consumers)[0]);
      } else {
        assert mappings + [] == mappings;
      }
    }
  }

  /** With distinct mids it gives every audio or video entry its consumer SSRC. */
  lemma {:induction false} LookupOfEntry(entries: seq<MidMapEntry>, receiver: UserId, consumers: Consumers, i: nat)
    requires DistinctMids(entries) && AllAllocated(entries, receiver, consumers)
    requires i < |entries| && TrackKindOf(entries[i].kind).Some?
    ensures var lookup := N.LookupOf(MappingsOf(entries, receiver, consumers));
            entries[i].mid in lookup
            && lookup[entries[i].mid]
               == consumers[ConsumerKey(receiver, entries[i].userId, TrackKindOf(entries[i].kind).value)]
  {
    hide N.LookupOf;
    var n := |entries| - 1;
    var before, last := entries[..n], entries[n];
    var mappings := MappingsOf(before, receiver, consumers);
    if i < n {
      LookupOfEntry(before, receiver, consumers, i);
    }
    if TrackKindOf(last.kind).Some? {
      LookupAppendOne(mappings, MappingOf(last, receiver, consumers)[0]);
    } else {
      assert mappings + [] == mappings;
    }
  }

  /** Media section `k` of the answer has exactly one a=ssrc line, and it names `ssrc`. */
  predicate Prints(answer: string, k: nat, ssrc: u32) {
    var groups := N.Groups(Text.Lines(answer));
    && k < |groups| && |N.SsrcLines(groups[k])| == 1
    && N.SsrcOf(N.SsrcLines(groups[k])[0]) == ssrc
  }

  /** Media section `k` of the answer has no a=ssrc line. */
  predicate PrintsNone(answer: string, k: nat) {
    var groups := N.Groups(Text.Lines(answer));
    k < |groups| && N.SsrcLines(groups[k]) == []
  }

  predicate OneMid(s: P.Section) {
    |N.MidLines(s.codecLines)| == 1
  }

  /** Entry `e` maps the mid of section `s` to a kind of media of a user. */
  predicate Maps(e: MidMapEntry, s: P.Section) {
    e.mid == s.mid && TrackKindOf(e.kind).Some?
  }

  /**
   * What an answer announces: the sections of the offer with one a=mid line have one a=ssrc line each if their mid
   * is mapped, with the nonzero consumer SSRC of the user and kind it is mapped to, and none otherwise.
   */
  predicate Announces(answer: string, sections: seq<P.Section>, entries: seq<MidMapEntry>, receiver: UserId,
                      consumers: Consumers)
  {
    && |N.Groups(Text.Lines(answer))| == |sections|
    && (forall k, e :: 0 <= k < |sections| && 0 <= e < |entries| && OneMid(sections[k])
                       && Maps(entries[e], sections[k]) ==>
          var key := ConsumerKey(receiver, entries[e].userId, TrackKindOf(entries[e].kind).value);
          key in consumers && consumers[key] > 0 && Prints(answer, k, consumers[key]))
    && (forall k :: 0 <= k < |sections| && OneMid(sections[k]) && !Names(entries, sections[k].mid) ==>
          PrintsNone(answer, k))
  }

  /** The a=ssrc lines of the block of a section with one a=mid line. */
  lemma PrintedIsConsumerSsrc(s: P.Section, env: A.Env, entries: seq<MidMapEntry>, receiver: UserId,
                              consumers: Consumers)
    requires DistinctMids(entries) && AllAllocated(entries, receiver, consumers)
    requires P.ParsedSection(s) && R.HasPort(s, env.port) && !Text.Has(env.port, ' ') && OneMid(s)
    ensures var printed := N.SsrcLines(N.Block(s, env, N.LookupOf(MappingsOf(entries, receiver, consumers))));
            && (forall i :: 0 <= i < |entries| && Maps(entries[i], s) ==>
                  && |printed| == 1
                  && N.SsrcOf(printed[0])
                     == consumers[ConsumerKey(receiver, entries[i].userId, TrackKindOf(entries[i].kind).value)])
            && (!Names(entries, s.mid) ==> printed == [])
  {
    hide N.SsrcLines, N.Block, N.LookupOf, N.SsrcOf, N.SsrcLine, N.MidLines, MappingsOf, Text.Has, P.ParsedSection,
         R.HasPort;
    var lookup := N.LookupOf(MappingsOf(entries, receiver, consumers));
    LookupKeys(entries, receiver, consumers, s.mid);
    forall i | 0 <= i < |entries| && Maps(entries[i], s)
      ensures s.mid in lookup
      ensures lookup[s.mid]
              == consumers[ConsumerKey(receiver, entries[i].userId, TrackKindOf(entries[i].kind).value)]
    {
      LookupOfEntry(entries, receiver, consumers, i);
    }
    N.BlockSsrcLines(s, env, lookup);
    if s.mid in lookup {
      N.SsrcReadBack(lookup[s.mid]);
    }
  }

  /** The renegotiated text announces the consumer SSRCs that it was built from. */
  lemma RenegoAnnounces(offer: string, env: A.Env, entries: seq<MidMapEntry>, receiver: UserId, consumers: Consumers)
    requires N.CleanOffer(offer, env) && DistinctMids(entries) && AllAllocated(entries, receiver, consumers)
    requires forall key :: key in consumers ==> consumers[key] > 0
    ensures var sections := P.Parse(Text.Lines(offer), env.port);
            Announces(N.RenegoText(A.AnswerText(sections, env, true), MappingsOf(entries, receiver, consumers)),
                      sections, entries, receiver, consumers)
  {
    hide P.Parse, A.AnswerText, Text.Lines, N.RenegoText, N.Block, N.Groups, N.SsrcLines, N.SsrcOf, N.LookupOf, OneMid,
         MappingsOf, Names, P.ParsedSection, R.HasPort, Text.Has;
    var sections := P.Parse(Text.Lines(offer), env.port);
    N.ParsedOffer(offer, env);
    N.RenegoGroups(offer, env, MappingsOf(entries, receiver, consumers));
    forall k | 0 <= k < |sections| && OneMid(sections[k])
      ensures var lookup := N.LookupOf(MappingsOf(entries, receiver, consumers));
              var printed := N.SsrcLines(N.Block(sections[k], env, lookup));
              && (forall i :: 0 <= i < |entries| && Maps(entries[i], sections[k]) ==>
                    && |printed| == 1
                    && N.SsrcOf(printed[0])
                       == consumers[ConsumerKey(receiver, entries[i].userId, TrackKindOf(entries[i].kind).value)])
              && (!Names(entries, sections[k].mid) ==> printed == [])
    {
      PrintedIsConsumerSsrc(sections[k], env, entries, receiver, consumers);
    }
  }

  /**
   * Announced SSRC equals relayed SSRC. After a renegotiation by `receiver`, for every mapped section `k` of the
   * answer and every track of the announced kind of the announced user: the one SSRC printed in section `k` is not
   * zero, each packet of the track is relayed to the receiver with it in bytes 8 to 11 and all else unchanged, and
   * it reaches the receiver in no other form if and only if every track that runs under the packet's SSRC in the
   * channel, whoever registered it, has that consumer SSRC for the receiver or none.
   */
  lemma AnnouncedSsrcIsRelayed(answer: string, sections: seq<P.Section>, k: nat, entries: seq<MidMapEntry>, e: nat,
                               hub: MediaPeerHub, order: seq<Ufrag>, channel: ChannelId, receiver: UserId,
                               sender: Ufrag, u: Ufrag, i: nat, rtp: seq<byte>)
    requires Announces(answer, sections, entries, receiver, hub.consumers)
    requires k < |sections| && e < |entries| && OneMid(sections[k]) && Maps(entries[e], sections[k])
    requires Rebuilt(hub.relay, hub.Sources(), hub.consumers, channel)
    requires Enumerates(order, hub.byUfrag.Keys) && Reachable(hub, channel, receiver)
    requires u in hub.byUfrag && hub.byUfrag[u].channelId == channel && hub.byUfrag[u].userId == entries[e].userId
    requires i < |hub.byUfrag[u].tracks| && hub.byUfrag[u].tracks[i].kind == TrackKindOf(entries[e].kind).value
    requires |rtp| >= 12 && U32At(rtp, 8) == hub.byUfrag[u].tracks[i].ssrc
    ensures var out := Relayed(true, true, PeersIn(hub, order, channel), hub.relay, sender, rtp);
            exists c: u32 :: c > 0 && Prints(answer, k, c)
              && (exists d :: d in out && d.receiver == receiver && Rewrites(rtp, d.payload, c))
              && ((forall d :: d in out && d.receiver == receiver ==> Rewrites(rtp, d.payload, c))
                  <==> OneConsumer(hub.Sources(), hub.consumers, channel, U32At(rtp, 8), receiver, c))
  {
    hide Prints, PrintsNone, OneMid, Relayed, PeersIn, Rewrites, OneConsumer, Rebuilt, U32At, Reachable, FindUser;
    var sources := hub.Sources();
    var peers := PeersIn(hub, order, channel);
    var key := ConsumerKey(receiver, entries[e].userId, TrackKindOf(entries[e].kind).value);
    ReachableIsFound(hub, order, channel, receiver);
    assert sources[u] == hub.byUfrag[u].AsSource();
    assert key == ConsumerKey(receiver, sources[u].userId, sources[u].tracks[i].kind);
    AnnouncedIsRelayed(hub.relay, sources, hub.consumers, channel, peers, sender, receiver, u, i, rtp);
    var c := hub.consumers[key];
    assert c > 0 && Prints(answer, k, c);
  }

  // ------------------------------------------------------------------------
  // The handler
  // ------------------------------------------------------------------------

  function AsText(ufrag: Ufrag): string {
    seq(|ufrag|, i requires 0 <= i < |ufrag| => ufrag[i] as char)
  }

  /** The environment with the credentials of the receiver's endpoint, empty ones if it is gone. */
  function WithCredentials(env: A.Env, ep: Option<MediaPeers.Endpoint>): (mine: A.Env)
    ensures ep.Some? ==> mine.pwd == ep.value.icePwd && |mine.ufrag| == |ep.value.ufrag|
                         && forall i :: 0 <= i < |mine.ufrag| ==> mine.ufrag[i] as int == ep.value.ufrag[i]
    ensures ep.None? ==> mine.pwd == mine.ufrag == ""
    ensures mine == env.(ufrag := mine.ufrag, pwd := mine.pwd)
  {
    match ep
    case Some(e) => env.(ufrag := AsText(e.ufrag), pwd := e.icePwd)
    case None => env.(ufrag := "", pwd := "")
  }

  /**
   * RENEGOTIATE: nothing changes for an unknown channel; otherwise the answer announces, for mids without an equals
   * sign mapped at most once, the consumer SSRCs that the rebuilt relay map then routes to, and none allocated before
   * is changed.
   */
  method HandleRenegotiate(channels: Server.ChannelHub, media: MediaPeerHub, current: Option<Ufrag>, receiver: UserId,
                           id: ChannelId, offer: string, env: A.Env, entries: seq<MidMapEntry>, randoms: seq<u32>)
    returns (answer: Option<string>)
    requires media.Valid() && |randoms| >= |entries|
    modifies media`consumers, media`relay
    ensures media.Valid()
    ensures id !in channels.channels ==>
              answer == None && media.consumers == old(media.consumers) && media.relay == old(media.relay)
    ensures id in channels.channels ==>
              var key := current.GetOr([]);
              var mine := WithCredentials(env, if key in media.byUfrag then Some(media.byUfrag[key]) else None);
              var sections := P.Parse(Text.Lines(offer), env.port);
              && Rebuilt(media.relay, media.Sources(), media.consumers, id)
              && AllAllocated(entries, receiver, media.consumers)
              && answer == Some(N.RenegoText(A.AnswerText(sections, mine, true),
                                             MappingsOf(entries, receiver, media.consumers)))
              && (N.CleanOffer(offer, mine) && DistinctMids(entries) ==>
                    Announces(answer.value, sections, entries, receiver, media.consumers))
    ensures forall key :: key in old(media.consumers) ==>
              key in media.consumers && media.consumers[key] == old(media.consumers)[key]
  {
    hide Rebuilt, Backed, MappingsOf, N.RenegoText, A.AnswerText, P.Parse, Text.Lines, N.CleanOffer, DistinctMids,
         Announces, AllAllocated;
    if id !in channels.channels {
      return None;
    }
    var key := current.GetOr([]);
    var mine := WithCredentials(env, if key in media.byUfrag then Some(media.byUfrag[key]) else None);
    var mappings := AllocateAll(media, receiver, entries, randoms);
    var sdp := N.BuildSdpAnswerForRenego(offer, mine, mappings);
    media.RebuildRelayMap(id);
    ghost var sound := N.CleanOffer(offer, mine) && DistinctMids(entries);
    if sound {
      RenegoAnnounces(offer, mine, entries, receiver, media.consumers);
    }
    return Some(sdp);
  }
}
