/**
 * The create view: `handleCreateLUT` parses the text, reports the first
 * address `new PublicKey` refuses, and otherwise builds one transaction that
 * creates a table and extends it with the whole parsed list.
 */
module Create {
  import opened Wrappers
  import opened Lut

  /**
   * What the awaited calls of `handleCreateLUT` yield: `getSlot` fails, or it
   * succeeds and `createLookupTable` derives the new table's address, after
   * which the blockhash, signing, sending and confirmation give `submit`.
   */
  datatype CreateOutcome = SlotFailed(failure: Failure) | SlotObtained(table: string, submit: SubmitResult)

  /** The errors the parse and the key conversion throw: an empty parse first, then the first invalid entry. */
  function InputError(text: string, publicKeys: iset<string>): (e: Option<Notice>)
    ensures e == Some(EnterAtLeastOne) <==> ParseAddresses(text) == []
    ensures e.None? <==> ParseAddresses(text) != [] && AllPublicKeys(ParseAddresses(text), publicKeys)
    ensures ParseAddresses(text) != [] ==> e == InvalidAddressError(ParseAddresses(text), publicKeys)
  {
    var list := ParseAddresses(text);
    if |list| == 0 then Some(EnterAtLeastOne) else InvalidAddressError(list, publicKeys)
  }

  class CreateLut {
    // props and context
    var addresses: string
    var hasPublicKey: bool
    var canSign: bool
    // component state
    var isLoading: bool
    var error: Option<Notice>
    var success: Option<Notice>

    /** `publicKey && signTransaction`. */
    predicate WalletReady()
      reads this
    {
      hasPublicKey && canSign
    }

    /** The state on mount. */
    constructor(addresses: string, hasPublicKey: bool, canSign: bool)
      ensures (this.addresses, this.hasPublicKey, this.canSign) == (addresses, hasPublicKey, canSign)
      ensures !isLoading && error == None && success == None
    {
      this.addresses, this.hasPublicKey, this.canSign := addresses, hasPublicKey, canSign;
      isLoading, error, success := false, None, None;
    }

    /** The parent changes the address text; nothing else changes. */
    method EditAddresses(s: string)
      modifies this
      ensures addresses == s
      ensures (hasPublicKey, canSign, isLoading, error, success) == old((hasPublicKey, canSign, isLoading, error, success))
    {
      addresses := s;
    }

    /**
     * `handleCreateLUT` as one step, with the awaited calls as `outcome`.
     * Returns the addresses of the extend instruction, when one was built.
     */
    method HandleCreateLut(publicKeys: iset<string>, outcome: CreateOutcome) returns (extendKeys: Option<seq<string>>)
      modifies this
      ensures (addresses, hasPublicKey, canSign) == old((addresses, hasPublicKey, canSign))
      // the wallet gate returns before anything else is touched
      ensures !WalletReady() ==>
                && extendKeys == None && error == Some(WalletNotConnected)
                && isLoading == old(isLoading) && success == old(success)
      // past the gate, loading ends on every path and the banners never both show
      ensures WalletReady() ==> !isLoading && (error.None? <==> success.Some?)
      ensures WalletReady() && InputError(addresses, publicKeys).Some? ==>
                extendKeys == None && error == InputError(addresses, publicKeys)
      ensures WalletReady() && InputError(addresses, publicKeys).None? ==>
                match outcome
                case SlotFailed(f) => extendKeys == None && error == Some(CreateFailed(f))
                case SlotObtained(table, submit) =>
                  && extendKeys == Some(ParseAddresses(addresses))
                  && (submit.Confirmed? ==> success == Some(Created(table)))
                  && (submit.SubmitFailed? ==> error == Some(CreateFailed(submit.failure)))
    {
      if !(hasPublicKey && canSign) {
        error := Some(WalletNotConnected);
        return None;
      }
      isLoading := true;
      error := None;
      success := None;
      extendKeys := None;
      var problem := InputError(addresses, publicKeys);
      if problem.Some? {
        error := problem;
      } else {
        match outcome {
          case SlotFailed(f) =>
            error := Some(CreateFailed(f));
          case SlotObtained(table, submit) =>
            extendKeys := Some(ParseAddresses(addresses));
            match submit {
              case Confirmed =>
                success := Some(Created(table));
              case SubmitFailed(f) =>
                error := Some(CreateFailed(f));
            }
        }
      }
      isLoading := false;
    }

    /** The "Create LUT" button: disabled while loading or without a wallet key. */
    function ButtonEnabled(): (enabled: bool)
      reads this
      ensures enabled <==> !isLoading && hasPublicKey
    {
      !(isLoading || !hasPublicKey)
    }
  }
}
