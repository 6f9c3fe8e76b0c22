/**
 * What a client's own ufrag does to a renegotiated answer: a join without an offer registers the ufrag of the request
 * (src/protocol/protocol.rs:268), and a renegotiation prints it.
 */
module ClientUfrags {
  import opened Basics
  import opened Text
  import opened SdpParse
  import opened SdpAnswer
  import opened SdpPatch
  import opened SdpReparse
  import opened SdpUfrag
  import opened SdpOffers
  import opened MediaPeers
  import opened Renegotiation
  import Stun
  import Relay
  import Server = FloorServer
  import Delivery
  import Sessions
  import N = SdpRenego

  // ------------------------------------------------------------------------
  // Generated ufrags
  // ------------------------------------------------------------------------

  predicate Generated(ufrag: Ufrag) {
    forall i :: 0 <= i < |ufrag| ==> Stun.IceChar(ufrag[i])
  }

  lemma GeneratedIsPlain(ufrag: Ufrag)
    requires Generated(ufrag)
    ensures OneLine(AsText(ufrag)) && NoEquals(AsText(ufrag))
  {
    var s := AsText(ufrag);
    forall i | 0 <= i < |s| ensures s[i] != '\n' && s[i] != '=' {
      assert Stun.IceChar(ufrag[i]) && s[i] == ufrag[i] as char;
    }
  }

  /** The server's own values: single lines without an equals sign. */
  predicate OwnValues(env: Env) {
    OwnLines(env) && NoEquals(env.ip) && NoEquals(env.pwd) && NoEquals(env.fingerprint)
  }

  /** With a generated ufrag, mids without an equals sign, and so all SDP tokens, make every offer a clean one. */
  lemma GeneratedIsClean(offer: string, env: Env, ufrag: Ufrag)
    requires OwnValues(env) && !Has(env.port, ' ') && Generated(ufrag) && env.ufrag == AsText(ufrag)
    requires NoEqualsMids(Parse(Lines(offer), env.port))
    ensures N.CleanOffer(offer, env)
  {
    hide Parse, Lines, NoEqualsMids, Has, NoEquals, OneLine;
    GeneratedIsPlain(ufrag);
    N.NoEqualsIsClean(offer, env);
  }

  // ------------------------------------------------------------------------
  // A join without an offer and a renegotiation
  // ------------------------------------------------------------------------

  function WithUfrag(env: Env, ufrag: Ufrag): Env {
    env.(ufrag := AsText(ufrag), pwd := "")
  }

  /** Joins without an offer, with the client's ufrag and no password, and renegotiates with nothing mapped. */
  method JoinAndRenegotiate(session: Sessions.Session, users: Delivery.UserHub, hub: Server.ChannelHub,
                            media: MediaPeerHub, id: ChannelId, ufrag: Ufrag, offer: string, env: Env)
    returns (answer: string)
    requires session.Valid() && session.user.Some? && hub.Valid() && media.Valid() && id in hub.channels
    requires session.user.value !in hub.channels[id].members
    requires |hub.channels[id].members| < hub.channels[id].capacity
    modifies session, users, media, hub.channels[id]
    ensures answer == AnswerText(Parse(Lines(offer), env.port), WithUfrag(env, ufrag), true)
  {
    hide AnswerText, Parse, Lines, MediaPeerHub.Valid, Sessions.OnlyIn, Announces, Rebuilt, Sessions.Registered;
    var joined := Sessions.HandleChannelJoin(session, users, hub, media, id, ufrag, "", 1, []);
    var user := session.user.value;
    var renegotiated := HandleRenegotiate(hub, media, session.ufrag, user, id, offer, env, [], []);
    answer := renegotiated.value;
  }

  function Bytes(s: string): Ufrag
    requires forall i :: 0 <= i < |s| ==> s[i] as int < 0x100
  {
    seq(|s|, i requires 0 <= i < |s| => s[i] as int)
  }

  lemma TextOfBytes(s: string)
    requires forall i :: 0 <= i < |s| ==> s[i] as int < 0x100
    ensures AsText(Bytes(s)) == s
  {
  }

  /**
   * The client's ufrag is the m= line that its offer will have: the patch of the answer lands in the credentials,
   * whatever the mid, and the m= line keeps the payload types that it should drop.
   */
  method UfragMisleadsPatch(session: Sessions.Session, users: Delivery.UserHub, hub: Server.ChannelHub,
                            media: MediaPeerHub, id: ChannelId, env: Env, mid: string) returns (answer: string)
    requires session.Valid() && session.user.Some? && hub.Valid() && media.Valid() && id in hub.channels
    requires session.user.value !in hub.channels[id].members
    requires |hub.channels[id].members| < hub.channels[id].capacity
    requires !Has(env.port, ' ') && OneLine(env.port) && Trimmed(mid)
    requires forall i :: 0 <= i < |AudioMLine(env.port)| ==> AudioMLine(env.port)[i] as int < 0x100
    modifies session, users, media, hub.channels[id]
    ensures var mine := WithUfrag(env, Bytes(AudioMLine(env.port)));
            var sections := Parse(Lines(AudioOffer(env.port, RecvOnly, mid)), env.port);
            answer == AnswerText(sections, mine, true) && answer != Join(AnswerLines(sections, mine, true))
  {
    hide AnswerText, AnswerLines, Parse, Lines, Join, MediaPeerHub.Valid, AudioMLine, AudioOffer, Has, OneLine, Trimmed;
    var ufrag := Bytes(AudioMLine(env.port));
    TextOfBytes(AudioMLine(env.port));
    answer := JoinAndRenegotiate(session, users, hub, media, id, ufrag, AudioOffer(env.port, RecvOnly, mid), env);
    UfragOfferMisleads(WithUfrag(env, ufrag), mid, true);
  }

  /** The client's ufrag has a second line that starts with m=: the answer announces nothing for the offer. */
  method UfragAddsMediaSection(session: Sessions.Session, users: Delivery.UserHub, hub: Server.ChannelHub,
                               media: MediaPeerHub, id: ChannelId, env: Env, mid: string) returns (answer: string)
    requires session.Valid() && session.user.Some? && hub.Valid() && media.Valid() && id in hub.channels
    requires session.user.value !in hub.channels[id].members
    requires |hub.channels[id].members| < hub.channels[id].capacity
    requires OwnLines(env) && !Has(env.port, ' ') && Trimmed(mid)
    modifies session, users, media, hub.channels[id]
    ensures var sections := Parse(Lines(AudioOffer(env.port, Inactive, mid)), env.port);
            && |sections| == 1 && |N.Groups(Lines(answer))| != 1
            && forall entries, receiver, consumers :: !Announces(answer, sections, entries, receiver, consumers)
  {
    hide AnswerText, Parse, Lines, MediaPeerHub.Valid, AudioOffer, Has, OneLine, Trimmed, N.Groups;
    var ufrag := Bytes(TWO_LINES);
    TextOfBytes(TWO_LINES);
    answer := JoinAndRenegotiate(session, users, hub, media, id, ufrag, AudioOffer(env.port, Inactive, mid), env);
    NoPassword(env, ufrag);
    SdpOffers.UfragAddsSection(WithUfrag(env, ufrag), mid, []);
  }

  lemma NoPassword(env: Env, ufrag: Ufrag)
    requires OwnLines(env)
    ensures OwnLines(WithUfrag(env, ufrag))
  {
  }
}
