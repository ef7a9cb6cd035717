/**
 * Two small string services of the server: the ping reply and the test
 * whether a browser's user agent belongs to a phone.
 */
module Ping {
  import opened Wrappers
  import opened Strings

  /** Longest client message echoed back by a ping. */
  const MaxPingMessage: nat := 256

  /** ping: "ping:" followed by the client message, cut to its first 256 characters. */
  function Ping(message: string): (r: string)
    ensures |r| == 5 + (if |message| > MaxPingMessage then MaxPingMessage else |message|)
    ensures r[..5] == "ping:" && message[..|r| - 5] == r[5..]
  {
    var echoed := if |message| > MaxPingMessage then message[..MaxPingMessage] else message;
    "ping:" + echoed
  }

  /** Every reply is at most 261 characters, and a message of up to 256 characters comes back whole. */
  lemma PingBounds(message: string)
    ensures |Ping(message)| <= 5 + MaxPingMessage
    ensures |message| <= MaxPingMessage ==> Ping(message)[5..] == message
    ensures |message| > MaxPingMessage ==> Ping(message)[5..] == message[..MaxPingMessage]
  {
    var r := Ping(message);
    if |message| <= MaxPingMessage {
      assert message[..|r| - 5] == message;
    }
  }

  /** isPhone: a user agent naming "Mobile" or "iPhone"; a missing user agent is no phone. */
  function IsPhone(userAgent: Option<string>): (r: bool)
    ensures r <==> userAgent.Some? && exists i :: OccursAt(userAgent.value, "Mobile", i) || OccursAt(userAgent.value, "iPhone", i)
  {
    match userAgent
    case None => false
    case Some(ua) =>
      ContainsIffOccurs(ua, "Mobile");
      ContainsIffOccurs(ua, "iPhone");
      IndexOf(ua, "Mobile") >= 0 || IndexOf(ua, "iPhone") >= 0
  }

  /** A phone is recognised wherever the marker stands in the user agent. */
  lemma IsPhoneFindsMarker(prefix: string, suffix: string)
    ensures IsPhone(Some(prefix + "iPhone" + suffix))
    ensures IsPhone(Some(prefix + "Mobile" + suffix))
    ensures !IsPhone(None)
  {
    assert OccursAt(prefix + "iPhone" + suffix, "iPhone", |prefix|);
    assert OccursAt(prefix + "Mobile" + suffix, "Mobile", |prefix|);
  }

  /** A user agent too short to hold a marker is never a phone. */
  lemma ShortUserAgentIsNoPhone(ua: string)
    requires |ua| < 6
    ensures !IsPhone(Some(ua))
  {
  }
}
