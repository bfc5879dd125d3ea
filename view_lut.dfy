/**
 * The view component: `handleViewLUT` checks the table address, fetches the
 * table and shows its keys as numbered rows; an effect runs it when the
 * address or the endpoint changes and the address is long enough.
 */
module View {
  import opened Wrappers
  import opened Lut

  /** The condition of the auto-fetch effect, `lutAddress && lutAddress.length >= 32`. */
  function AutoFetch(lutAddress: string): (fires: bool)
    ensures fires <==> |lutAddress| >= MinLutAddressLength
    ensures fires <==> !TooShort(lutAddress)
  {
    lutAddress != "" && |lutAddress| >= MinLutAddressLength
  }

  class ViewLut {
    // props and context
    var lutAddress: string
    var endpoint: string
    // component state
    var isLoading: bool
    var error: Option<Notice>
    /** The rows on screen. */
    var addresses: seq<LutEntry>

    ghost predicate Valid()
      reads this
    {
      WellIndexed(addresses)
    }

    /** The state on mount; the effect then may run `HandleViewLut`. */
    constructor(lutAddress: string, endpoint: string)
      ensures Valid()
      ensures this.lutAddress == lutAddress && this.endpoint == endpoint
      ensures !isLoading && error == None && addresses == []
    {
      this.lutAddress, this.endpoint := lutAddress, endpoint;
      isLoading, error, addresses := false, None, [];
    }

    /** The parent changes the table address. Returns whether the effect runs `HandleViewLut`. */
    method EditLutAddress(s: string) returns (autoFetch: bool)
      requires Valid()
      modifies this
      ensures Valid()
      ensures lutAddress == s
      ensures autoFetch <==> s != old(lutAddress) && AutoFetch(s)
      ensures (endpoint, isLoading, error, addresses) == old((endpoint, isLoading, error, addresses))
    {
      autoFetch := s != lutAddress && AutoFetch(s);
      lutAddress := s;
    }

    /** The selected network's endpoint changes. Returns whether the effect runs `HandleViewLut`. */
    method ChangeEndpoint(e: string) returns (autoFetch: bool)
      requires Valid()
      modifies this
      ensures Valid()
      ensures endpoint == e
      ensures autoFetch <==> e != old(endpoint) && AutoFetch(lutAddress)
      ensures (lutAddress, isLoading, error, addresses) == old((lutAddress, isLoading, error, addresses))
    {
      autoFetch := e != endpoint && AutoFetch(lutAddress);
      endpoint := e;
    }

    /**
     * `handleViewLUT` as one step, with the awaited `getAddressLookupTable`
     * as `outcome`. Returns whether it reached the network.
     */
    method HandleViewLut(publicKeys: iset<string>, outcome: FetchOutcome) returns (requested: bool)
      requires Valid()
      modifies this
      ensures Valid()
      ensures lutAddress == old(lutAddress) && endpoint == old(endpoint)
      ensures !isLoading
      ensures requested <==> TableAddressError(lutAddress, publicKeys).None?
      ensures !requested ==> error == TableAddressError(lutAddress, publicKeys) && addresses == []
      ensures requested ==>
                match outcome
                case Found(keys) => error == None && addresses == IndexEntries(keys)
                case NotFound => error == Some(LutNotFound) && addresses == []
                case FetchFailed(f) => error == Some(ViewFailed(f)) && addresses == []
    {
      isLoading := true;
      error := None;
      addresses := [];
      var problem := TableAddressError(lutAddress, publicKeys);
      requested := problem.None?;
      if problem.Some? {
        error := problem;
      } else {
        match outcome {
          case Found(keys) =>
            addresses := IndexEntries(keys);
          case NotFound =>
            error := Some(LutNotFound);
          case FetchFailed(f) =>
            error := Some(ViewFailed(f));
        }
      }
      isLoading := false;
    }

    /** The "Total addresses" line: shown with the row count when there are rows. */
    function TotalShown(): (total: Option<nat>)
      reads this
      ensures total.Some? <==> addresses != []
      ensures total.Some? ==> total.value == |addresses|
    {
      if |addresses| > 0 then Some(|addresses|) else None
    }
  }
}
