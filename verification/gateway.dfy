/** `getPinataGatewayUrl`: rewrites URIs of one dedicated Pinata host to the
    public Pinata HTTP gateway and leaves every other URI alone. */
module Gateway {
  import Text

  const IpfsScheme := "ipfs://"
  const PinataPrefix := IpfsScheme + "aquamarine-fast-ape-918.mypinata.cloud"
  const PinataGateway := "https://gateway.pinata.cloud/ipfs/"

  /** Empty input and URIs not on the Pinata host are returned as they are,
      plain "ipfs://Qm…" URIs included; a Pinata URI becomes the gateway
      followed by what came after its "ipfs://". */
  function PinataGatewayUrl(uri: string): (r: string)
    ensures !Text.StartsWith(uri, PinataPrefix) ==> r == uri
    ensures Text.StartsWith(uri, PinataPrefix) ==> r == PinataGateway + uri[7..]
  {
    if uri == "" || !Text.StartsWith(uri, PinataPrefix) then uri
    else
      assert uri[..7] == PinataPrefix[..7] == IpfsScheme;
      assert Text.ReplaceFirst(uri, "ipfs://", "") == uri[7..] by {
        assert |"ipfs://"| == 7;
        assert "" + uri[7..] == uri[7..];
      }
      PinataGateway + Text.ReplaceFirst(uri, "ipfs://", "")
  }

  /** A rewritten URI starts with "https://", so rewriting twice is rewriting once. */
  lemma PinataGatewayIdempotent(uri: string)
    ensures PinataGatewayUrl(PinataGatewayUrl(uri)) == PinataGatewayUrl(uri)
  {
    var r := PinataGatewayUrl(uri);
    if Text.StartsWith(uri, PinataPrefix) {
      assert r[0] == 'h';
      assert PinataPrefix[0] == IpfsScheme[0] == 'i';
    }
  }
}
