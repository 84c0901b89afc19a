/**
 * The contract surface of `RemixOnChain`: the two seed operations and the
 * token metadata URI. The ERC-721 ledger state is an abstract type
 * parameter: this contract's own code never reads or writes it.
 */
module Contract {
  import opened Bytes
  import opened Wrappers
  import Hex
  import Decimal
  import Oscillator
  import opened Wave

  /** Stylus `ArbResult`: the returned bytes, or the bytes of a revert. */
  datatype ArbResult = Ok(data: seq<byte>) | Err(revert: seq<byte>)

  predicate IsAscii(s: string) {
    forall k :: 0 <= k < |s| ==> s[k] < 128 as char
  }

  /** String::into_bytes / as_bytes for ASCII text: one UTF-8 byte per character. */
  function AsciiBytes(s: string): (bs: seq<byte>)
    requires IsAscii(s)
    ensures |bs| == |s|
  {
    seq(|s|, k requires 0 <= k < |s| => s[k] as int)
  }

  /** The inverse of `AsciiBytes`: the characters with those codes. */
  function AsciiString(bs: seq<byte>): (s: string)
    ensures |s| == |bs|
  {
    seq(|bs|, k requires 0 <= k < |bs| => bs[k] as char)
  }

  lemma AsciiRoundTrip(s: string)
    requires IsAscii(s)
    ensures AsciiString(AsciiBytes(s)) == s
  {
  }

  /** What generate_wave returns on success: the CID's bytes. */
  function WaveBytes<F>(p: Platform<F>, seed: u64): (bs: seq<byte>)
    ensures |bs| == 64
    ensures Hex.Decode(AsciiString(bs)) == Some(WaveDigest(p, seed))
  {
    var cid := Cid(p, seed);
    AsciiRoundTrip(cid);
    AsciiBytes(cid)
  }

  /** What mint_if_valid returns on success: SHA-256 of the CID's bytes. */
  function MintDigest<F>(p: Platform<F>, seed: u64): (d: seq<byte>)
    ensures |d| == 32
  {
    Sha256Hash(p.sha256, WaveBytes(p, seed))
  }

  /**
   * mint_if_valid hashes twice: the second hash is taken over the 64 ASCII
   * characters of the hex rendering of the first, not over the first digest.
   */
  lemma MintIsDoubleHash<F>(p: Platform<F>, seed: u64)
    ensures MintDigest(p, seed) ==
      p.sha256(AsciiBytes(Hex.Encode(p.sha256(EncodedWave(p, seed)))))
    ensures AsciiString(WaveBytes(p, seed)) == Hex.Encode(WaveDigest(p, seed))
  {
    AsciiRoundTrip(Cid(p, seed));
  }

  /**
   * For some hash functions the two results differ: what mint_if_valid returns
   * is not, in general, the digest that generate_wave's CID hex-decodes to.
   */
  lemma MintCanDiffer<F>(ops: Oscillator.FloatOps<F>, seed: u64)
    ensures exists sha: Sha256 :: MintDigest(Platform(sha, ops), seed) != WaveDigest(Platform(sha, ops), seed)
  {
    var d0: Digest := seq(32, i => 0);
    var d1: Digest := seq(32, i => 1);
    assert d0[0] != d1[0];
    var sha: Sha256 := data => if |data| == 64 then d1 else d0;
    var p := Platform(sha, ops);
    assert |EncodedWave(p, seed)| == 352800 && |WaveBytes(p, seed)| == 64;
    assert MintDigest(p, seed) == d1 && WaveDigest(p, seed) == d0;
  }

  const METADATA_BASE: string := "https://my-nft-metadata.com/"
  const METADATA_SUFFIX: string := ".json"

  /** token_uri: the base URL, the decimal token id, then ".json". */
  function TokenUri(tokenId: u256): (uri: string)
    ensures |uri| > |METADATA_BASE| + |METADATA_SUFFIX|
    ensures uri[..|METADATA_BASE|] == METADATA_BASE
    ensures uri[|uri| - |METADATA_SUFFIX|..] == METADATA_SUFFIX
    ensures Decimal.IsCanonical(uri[|METADATA_BASE|..|uri| - |METADATA_SUFFIX|])
    ensures Decimal.Value(uri[|METADATA_BASE|..|uri| - |METADATA_SUFFIX|]) == tokenId
  {
    var digits := Decimal.Render(tokenId);
    var uri := METADATA_BASE + digits + METADATA_SUFFIX;
    assert uri[|METADATA_BASE|..|uri| - |METADATA_SUFFIX|] == digits;
    Decimal.ValueRender(tokenId);
    uri
  }

  /** Reads the token id back out of a metadata URI. */
  function ParseTokenUri(uri: string): (id: Option<nat>)
  {
    if |uri| < |METADATA_BASE| + |METADATA_SUFFIX| then None
    else if uri[..|METADATA_BASE|] != METADATA_BASE then None
    else if uri[|uri| - |METADATA_SUFFIX|..] != METADATA_SUFFIX then None
    else
      var digits := uri[|METADATA_BASE|..|uri| - |METADATA_SUFFIX|];
      if Decimal.IsCanonical(digits) then Some(Decimal.Value(digits)) else None
  }

  /** The id can be read back from its URI, so distinct tokens have distinct URIs. */
  lemma ParseTokenUriRoundTrip(tokenId: u256)
    ensures ParseTokenUri(TokenUri(tokenId)) == Some(tokenId)
  {
    var uri := TokenUri(tokenId);
    var digits := Decimal.Render(tokenId);
    assert uri[|METADATA_BASE|..|uri| - |METADATA_SUFFIX|] == digits;
    Decimal.ValueRender(tokenId);
  }

  /** Distinct token ids have distinct URIs. */
  lemma TokenUriInjective(a: u256, b: u256)
    requires TokenUri(a) == TokenUri(b)
    ensures a == b
  {
    ParseTokenUriRoundTrip(a);
    ParseTokenUriRoundTrip(b);
  }

  /** The contract's storage, bound to the ERC-721 ledger state it carries. */
  class RemixOnChain<Ledger> {
    var totalMinted: u256
    var erc721: Ledger

    constructor (totalMinted: u256, erc721: Ledger)
      ensures this.totalMinted == totalMinted && this.erc721 == erc721
    {
      this.totalMinted := totalMinted;
      this.erc721 := erc721;
    }

    /** generate_wave: the CID as bytes; never reverts. */
    method GenerateWave<F>(p: Platform<F>, seed: u64) returns (r: ArbResult)
      ensures r == Ok(WaveBytes(p, seed))
      ensures |r.data| == 64
      ensures Hex.IsLowerHex(AsciiString(r.data))
    {
      var cid := GenerateWaveImpl(p, seed);
      r := Ok(AsciiBytes(cid));
      AsciiRoundTrip(cid);
    }

    /**
     * mint_if_valid: the SHA-256 of the CID's bytes; never reverts, checks
     * nothing, and leaves the minted count and the ledger as they were.
     */
    method MintIfValid<F>(p: Platform<F>, seed: u64) returns (r: ArbResult)
      modifies this
      ensures r == Ok(MintDigest(p, seed)) && |r.data| == 32
      ensures totalMinted == old(totalMinted) && erc721 == old(erc721)
    {
      var cidString := GenerateWaveImpl(p, seed);
      var cidBytes := AsciiBytes(cidString);
      var cidHash := Sha256Hash(p.sha256, cidBytes);
      r := Ok(cidHash);
    }
  }
}
