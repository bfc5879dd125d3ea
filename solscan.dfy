/** The chain environments the network selector offers. */
module Networks {

  datatype Network = Devnet | MainnetBeta | Testnet

  /** The cluster name the selector and the explorer use for a network. */
  function Name(n: Network): string {
    match n
    case Devnet => "devnet"
    case MainnetBeta => "mainnet-beta"
    case Testnet => "testnet"
  }

  /** Distinct networks have distinct names. */
  lemma NameInjective(a: Network, b: Network)
    ensures Name(a) == Name(b) ==> a == b
  {
  }
}

/** Explorer links for transaction signatures and their shortened display form. */
module Solscan {
  import opened Strings
  import opened Networks

  const TxPrefix := "https://solscan.io/tx/"

  /** The query that selects a cluster on the explorer; mainnet is the explorer's default and needs none. */
  function ClusterQuery(network: Network): (q: string)
    ensures q == "" <==> network == MainnetBeta
    ensures network != MainnetBeta ==> q == "?cluster=" + Name(network)
  {
    if network == MainnetBeta then "" else "?cluster=" + Name(network)
  }

  /** The explorer URL of a transaction: the prefix, the signature, then the cluster query; `network` defaults to devnet. */
  function GetSolscanUrl(signature: string, network: Network := Devnet): (url: string)
    ensures |url| == |TxPrefix| + |signature| + |ClusterQuery(network)|
    ensures url[..|TxPrefix|] == TxPrefix
    ensures url[|TxPrefix|..|TxPrefix| + |signature|] == signature
    ensures url[|TxPrefix| + |signature|..] == ClusterQuery(network)
    ensures network == MainnetBeta ==> url == TxPrefix + signature
  {
    TxPrefix + signature + ClusterQuery(network)
  }

  /** A URL built for a given signature tells which network it was built for. */
  lemma UrlDeterminesNetwork(signature: string, a: Network, b: Network)
    ensures GetSolscanUrl(signature, a) == GetSolscanUrl(signature, b) ==> a == b
  {
    if GetSolscanUrl(signature, a) == GetSolscanUrl(signature, b) {
      assert ClusterQuery(a) == ClusterQuery(b);
      if a != MainnetBeta && b != MainnetBeta {
        assert ClusterQuery(a)[9..] == Name(a);
        assert ClusterQuery(b)[9..] == Name(b);
        NameInjective(a, b);
      }
    }
  }

  /**
   * `truncateSignature(signature, length = 8)`: the signature itself when it is at
   * most `2 * length` long, else `slice(0, length) + "..." + slice(-length)`.
   * With `length == 0`, `slice(-0)` is the whole string.
   */
  function TruncateSignature(signature: string, length: int := 8): (r: string)
    ensures |signature| <= 2 * length ==> r == signature
    ensures |signature| > 2 * length && length >= 1 ==>
              r == signature[..length] + "..." + signature[|signature| - length..]
    ensures |signature| > 2 * length && length >= 1 ==> |r| == 2 * length + 3
    ensures |signature| > 0 && length == 0 ==> r == "..." + signature
  {
    if |signature| <= length * 2 then signature
    else Slice(signature, 0, length) + "..." + SliceFrom(signature, -length)
  }
}
