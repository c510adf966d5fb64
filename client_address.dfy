/**
 * The client-address resolver: the first entry of the `X-Forwarded-For`
 * header when that header is present and non-empty, otherwise the address
 * of the directly connected peer.
 */
module ClientAddress {
  import opened Wrappers
  import opened Text

  /**
   * Whether the forwarded-for header takes effect: Python's `if xff:` is
   * false for a missing header (`None`) and for the empty string.
   */
  predicate Forwarded(xForwardedFor: Option<string>) {
    xForwardedFor.Some? && xForwardedFor.value != []
  }

  /**
   * The client address of a request, from its `X-Forwarded-For` header
   * (if sent) and the host of its transport peer.
   */
  function GetClientIp(xForwardedFor: Option<string>, peerHost: string): (r: string)
    ensures !Forwarded(xForwardedFor) ==> r == peerHost
    ensures Forwarded(xForwardedFor) ==> ',' !in r && NoEdgeSpace(r)
  {
    if Forwarded(xForwardedFor) then
      var first := FirstField(xForwardedFor.value, ',');
      var r := Strip(first);
      StripWithout(first, ',');
      r
    else
      peerHost
  }

  /** A header without a comma names one address: the whole value, stripped. */
  lemma SingleEntry(xForwardedFor: string, peerHost: string)
    requires xForwardedFor != [] && ',' !in xForwardedFor
    ensures GetClientIp(Some(xForwardedFor), peerHost) == Strip(xForwardedFor)
  {
    FirstFieldWithoutSep(xForwardedFor, ',');
  }

  /** Only the first entry counts: whatever follows the first comma is ignored. */
  lemma LaterEntriesIgnored(first: string, rest: string, peerHost: string)
    requires ',' !in first
    ensures GetClientIp(Some(first + "," + rest), peerHost) == Strip(first)
  {
    FirstFieldOfJoin(first, ',', rest);
  }

  /** A present, non-empty header decides alone; the peer host plays no part. */
  lemma PeerIgnoredWhenForwarded(xForwardedFor: Option<string>, peerHost: string, otherHost: string)
    requires Forwarded(xForwardedFor)
    ensures GetClientIp(xForwardedFor, peerHost) == GetClientIp(xForwardedFor, otherHost)
  {
  }

  /** The entries after the first one, with the comma that introduces them. */
  function Hops(rest: Option<string>): string {
    if rest.Some? then "," + rest.value else ""
  }

  /**
   * The resolver against an independent description of the header: an
   * address without commas or surrounding whitespace, padded with
   * whitespace on either side and optionally followed by a comma and more
   * entries, resolves to exactly that address.
   */
  lemma FirstEntry(lead: string, address: string, trail: string, rest: Option<string>, peerHost: string)
    requires AllSpace(lead) && AllSpace(trail)
    requires ',' !in address && NoEdgeSpace(address)
    requires lead + address + trail + Hops(rest) != []
    ensures GetClientIp(Some(lead + address + trail + Hops(rest)), peerHost) == address
  {
    var entry := lead + address + trail;
    StripPadded(lead, address, trail);
    FirstFieldOfHeader(entry, rest);
  }

  /** The first field of a header is its first entry, whatever entries follow. */
  lemma FirstFieldOfHeader(entry: string, rest: Option<string>)
    requires ',' !in entry
    ensures FirstField(entry + Hops(rest), ',') == entry
  {
    if rest.Some? {
      var h := entry + Hops(rest);
      assert h == entry + [','] + rest.value by {
        assert Hops(rest) == [','] + rest.value;
      }
      FirstFieldOfJoin(entry, ',', rest.value);
    } else {
      assert entry + Hops(rest) == entry;
      FirstFieldWithoutSep(entry, ',');
    }
  }

  /** `"203.0.113.5, 10.0.0.2"` resolves to `"203.0.113.5"`. */
  lemma ProxiedClient(peerHost: string)
    ensures GetClientIp(Some("203.0.113.5, 10.0.0.2"), peerHost) == "203.0.113.5"
  {
    var none: string, address := "", "203.0.113.5";
    assert ',' !in address && NoEdgeSpace(address);
    assert none + address + none + Hops(Some(" 10.0.0.2")) == "203.0.113.5, 10.0.0.2";
    FirstEntry(none, address, none, Some(" 10.0.0.2"), peerHost);
  }

  /** `"  198.51.100.7  , 10.0.0.9"` resolves to `"198.51.100.7"`. */
  lemma PaddedClient(peerHost: string)
    ensures GetClientIp(Some("  198.51.100.7  , 10.0.0.9"), peerHost) == "198.51.100.7"
  {
    var pad, address := "  ", "198.51.100.7";
    assert AllSpace(pad) by { assert pad[0] == ' ' && pad[1] == ' '; }
    assert ',' !in address && NoEdgeSpace(address);
    PaddedHeader();
    FirstEntry(pad, address, pad, Some(" 10.0.0.9"), peerHost);
  }

  /** The padded example header, split into padding, address, padding and hops. */
  lemma PaddedHeader()
    ensures "  " + "198.51.100.7" + "  " + Hops(Some(" 10.0.0.9")) == "  198.51.100.7  , 10.0.0.9"
  {
  }

  /** A header that starts with a comma resolves to the empty address. */
  lemma EmptyFirstEntry(peerHost: string)
    ensures GetClientIp(Some(",10.0.0.1"), peerHost) == ""
  {
    var none: string := "";
    assert none + none + none + Hops(Some("10.0.0.1")) == ",10.0.0.1";
    FirstEntry(none, none, none, Some("10.0.0.1"), peerHost);
  }

  /** Without a forwarded-for header the peer host is used as it is. */
  lemma DirectClient()
    ensures GetClientIp(None, "127.0.0.1") == "127.0.0.1"
  {
  }
}
