/** Which slot a push belongs to: its registration, and the lane it came by. */
module Lanes {
  import opened Text

  predicate IsTokenChar(c: char) {
    'a' <= c <= 'z' || 'A' <= c <= 'Z' || '0' <= c <= '9' || c == '-' || c == '_'
  }

  predicate ValidToken(token: string) {
    |token| == 32 && forall i :: 0 <= i < |token| ==> IsTokenChar(token[i])
  }

  const NUL: string := ['\0']

  const JMAP_LANE: string := ""

  const GMAIL: string := "gmail"

  function GmailLane(address: string): string {
    GMAIL + NUL + Normalise(address)
  }

  function SlotKey(token: string, lane: string): string {
    token + NUL + lane
  }

  /** Two registrations, or two lanes of one, never share a slot. */
  lemma SlotsAreApart(token: string, lane: string, token': string, lane': string)
    requires ValidToken(token) && ValidToken(token')
    ensures SlotKey(token, lane) == SlotKey(token', lane') <==> token == token' && lane == lane'
  {
    var key, key' := SlotKey(token, lane), SlotKey(token', lane');
    assert key[..32] == token && key'[..32] == token';
    assert key[33..] == lane && key'[33..] == lane';
  }

  /** Mailboxes share a lane exactly when they are one address, and none shares the JMAP lane. */
  lemma LanesAreApart(a: string, b: string)
    ensures GmailLane(a) == GmailLane(b) <==> Normalise(a) == Normalise(b)
    ensures GmailLane(a) != JMAP_LANE
  {
    assert GmailLane(a)[6..] == Normalise(a) && GmailLane(b)[6..] == Normalise(b);
  }
}
