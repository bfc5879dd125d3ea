/**
 * The extend view: the duplicate analysis of the candidate addresses against
 * the table's current rows, its preview, and the component state that the
 * handlers and effects update.
 */
module Extend {
  import opened Wrappers
  import opened Strings
  import opened Lut

  /** How many duplicates the confirmation panel lists before the "+N more" badge. */
  const PreviewLimit := 3

  datatype DuplicateAnalysis = DuplicateAnalysis(uniqueAddresses: seq<string>, duplicateAddresses: seq<string>)

  /** An extend transaction that has been built and not yet settled: its table and the addresses in its instruction. */
  datatype Submission = Submission(table: string, keys: seq<string>)

  /** The candidates not in the table, in input order. */
  function Unique(candidates: seq<string>, existing: set<string>): (r: seq<string>)
    ensures |r| <= |candidates|
  {
    if candidates == [] then []
    else
      var last := candidates[|candidates| - 1];
      Unique(candidates[..|candidates| - 1], existing) + (if last in existing then [] else [last])
  }

  /** The candidates already in the table, in input order. */
  function Duplicates(candidates: seq<string>, existing: set<string>): (r: seq<string>)
    ensures |r| <= |candidates|
  {
    if candidates == [] then []
    else
      var last := candidates[|candidates| - 1];
      Duplicates(candidates[..|candidates| - 1], existing) + (if last in existing then [last] else [])
  }

  /** The analysis `analyzeAddresses` records. */
  function Analyze(candidates: seq<string>, existing: set<string>): (r: DuplicateAnalysis)
    ensures |r.uniqueAddresses| + |r.duplicateAddresses| == |candidates|
  {
    PartitionSizes(candidates, existing);
    DuplicateAnalysis(Unique(candidates, existing), Duplicates(candidates, existing))
  }

  /**
   * The single pass of `analyzeAddresses` (extend-lut.tsx:155-164): each
   * candidate is pushed onto `duplicates` or `unique` by membership in the
   * table's address set.
   */
  method Partition(candidates: seq<string>, existing: set<string>) returns (unique: seq<string>, duplicates: seq<string>)
    ensures unique == Unique(candidates, existing)
    ensures duplicates == Duplicates(candidates, existing)
  {
    unique, duplicates := [], [];
    for i := 0 to |candidates|
      invariant unique == Unique(candidates[..i], existing)
      invariant duplicates == Duplicates(candidates[..i], existing)
    {
      var addr := candidates[i];
      assert candidates[..i + 1][..i] == candidates[..i];
      if addr in existing {
        duplicates := duplicates + [addr];
      } else {
        unique := unique + [addr];
      }
    }
    assert candidates[..|candidates|] == candidates;
  }

  /**
   * Every occurrence of a candidate lands in exactly one list: all its
   * occurrences in `duplicates` when the table holds it, all in `unique`
   * otherwise. Repeats within the candidates are kept.
   */
  lemma {:induction false} PartitionCounts(candidates: seq<string>, existing: set<string>)
    ensures forall x :: multiset(Duplicates(candidates, existing))[x] == if x in existing then multiset(candidates)[x] else 0
    ensures forall x :: multiset(Unique(candidates, existing))[x] == if x in existing then 0 else multiset(candidates)[x]
  {
    if candidates != [] {
      var init, last := candidates[..|candidates| - 1], candidates[|candidates| - 1];
      PartitionCounts(init, existing);
      assert candidates == init + [last];
      assert multiset(candidates) == multiset(init) + multiset{last};
    }
  }

  /** Nothing is lost or invented: the two lists together are the candidates, as a multiset and by length. */
  lemma PartitionSizes(candidates: seq<string>, existing: set<string>)
    ensures multiset(Unique(candidates, existing)) + multiset(Duplicates(candidates, existing)) == multiset(candidates)
    ensures |Unique(candidates, existing)| + |Duplicates(candidates, existing)| == |candidates|
  {
    PartitionCounts(candidates, existing);
    var u, d := Unique(candidates, existing), Duplicates(candidates, existing);
    assert multiset(u) + multiset(d) == multiset(candidates);
    assert |multiset(u) + multiset(d)| == |u| + |d|;
  }

  /** `duplicates` holds exactly the candidates the table holds, `unique` exactly the others. */
  lemma PartitionMembership(candidates: seq<string>, existing: set<string>)
    ensures forall x :: x in Duplicates(candidates, existing) <==> x in candidates && x in existing
    ensures forall x :: x in Unique(candidates, existing) <==> x in candidates && x !in existing
  {
    PartitionCounts(candidates, existing);
    forall x ensures x in Duplicates(candidates, existing) <==> x in candidates && x in existing {
      assert x in Duplicates(candidates, existing) <==> x in multiset(Duplicates(candidates, existing));
    }
    forall x ensures x in Unique(candidates, existing) <==> x in candidates && x !in existing {
      assert x in Unique(candidates, existing) <==> x in multiset(Unique(candidates, existing));
    }
  }

  /**
   * `xs` is `ys` with some entries removed and the rest kept in order.
   * Matching greedily from the back decides this.
   */
  predicate IsSubsequence(xs: seq<string>, ys: seq<string>)
    decreases |ys|
  {
    if xs == [] then true
    else if ys == [] then false
    else if xs[|xs| - 1] == ys[|ys| - 1] then IsSubsequence(xs[..|xs| - 1], ys[..|ys| - 1])
    else IsSubsequence(xs, ys[..|ys| - 1])
  }

  /** `unique` keeps the candidates' relative order. */
  lemma {:induction false} UniqueKeepsOrder(candidates: seq<string>, existing: set<string>)
    ensures IsSubsequence(Unique(candidates, existing), candidates)
  {
    if candidates != [] {
      var init, last := candidates[..|candidates| - 1], candidates[|candidates| - 1];
      UniqueKeepsOrder(init, existing);
      var u := Unique(init, existing);
      if last in existing {
        assert Unique(candidates, existing) == u;
        if u != [] {
          PartitionMembership(init, existing);
          assert u[|u| - 1] in u;
        }
      } else {
        assert Unique(candidates, existing) == u + [last];
        assert (u + [last])[..|u|] == u;
      }
    }
  }

  /** `duplicates` keeps the candidates' relative order. */
  lemma {:induction false} DuplicatesKeepOrder(candidates: seq<string>, existing: set<string>)
    ensures IsSubsequence(Duplicates(candidates, existing), candidates)
  {
    if candidates != [] {
      var init, last := candidates[..|candidates| - 1], candidates[|candidates| - 1];
      DuplicatesKeepOrder(init, existing);
      var d := Duplicates(init, existing);
      if last !in existing {
        assert Duplicates(candidates, existing) == d;
        if d != [] {
          PartitionMembership(init, existing);
          assert d[|d| - 1] in d;
        }
      } else {
        assert Duplicates(candidates, existing) == d + [last];
        assert (d + [last])[..|d|] == d;
      }
    }
  }

  /** With no duplicates the unique list is the whole candidate list. */
  lemma {:induction false} NoDuplicatesKeepsAll(candidates: seq<string>, existing: set<string>)
    requires Duplicates(candidates, existing) == []
    ensures Unique(candidates, existing) == candidates
  {
    if candidates != [] {
      var init := candidates[..|candidates| - 1];
      NoDuplicatesKeepsAll(init, existing);
      assert candidates == init + [candidates[|candidates| - 1]];
    }
  }

  /** Candidates all held by the table leave nothing to add. */
  lemma AllDuplicatesLeavesNothing(candidates: seq<string>, existing: set<string>)
    requires forall k :: 0 <= k < |candidates| ==> candidates[k] in existing
    ensures Unique(candidates, existing) == []
    ensures Duplicates(candidates, existing) == candidates
  {
    PartitionMembership(candidates, existing);
    PartitionSizes(candidates, existing);
    DuplicatesKeepOrder(candidates, existing);
    SubsequenceOfSameLength(Duplicates(candidates, existing), candidates);
  }

  lemma {:induction false} SubsequenceOfSameLength(xs: seq<string>, ys: seq<string>)
    requires IsSubsequence(xs, ys) && |xs| == |ys|
    ensures xs == ys
  {
    if xs != [] {
      SubsequenceLength(xs, ys[..|ys| - 1]);
      SubsequenceOfSameLength(xs[..|xs| - 1], ys[..|ys| - 1]);
      assert xs == xs[..|xs| - 1] + [xs[|xs| - 1]];
      assert ys == ys[..|ys| - 1] + [ys[|ys| - 1]];
    }
  }

  lemma {:induction false} SubsequenceLength(xs: seq<string>, ys: seq<string>)
    ensures IsSubsequence(xs, ys) ==> |xs| <= |ys|
    decreases |ys|
  {
    if xs != [] && ys != [] {
      SubsequenceLength(xs[..|xs| - 1], ys[..|ys| - 1]);
      SubsequenceLength(xs, ys[..|ys| - 1]);
    }
  }

  /** The example of a table holding A and B and the candidates B, C, C. */
  lemma AnalyzeExample()
    ensures Analyze(["B", "C", "C"], {"A", "B"}) == DuplicateAnalysis(["C", "C"], ["B"])
  {
    assert ["B", "C", "C"][..2] == ["B", "C"];
    assert ["B", "C"][..1] == ["B"];
    assert ["B"][..0] == [];
  }

  /** `addr.substring(0, 4) + "..." + addr.substring(addr.length - 4)`. */
  function ShortAddress(addr: string): (r: string)
    ensures |addr| >= 4 ==> r == addr[..4] + "..." + addr[|addr| - 4..]
    ensures |addr| >= 4 ==> |r| == 11
    ensures |addr| < 4 ==> r == addr + "..." + addr
  {
    Substring(addr, 0, 4) + "..." + SubstringFrom(addr, |addr| - 4)
  }

  /** The duplicate badges of the confirmation panel and the count on its "+N more" badge, if shown. */
  datatype Preview = Preview(badges: seq<string>, more: Option<nat>)

  /** `duplicates.slice(0, 3)` shortened, and `+(length - 3) more` when there are more than three. */
  function DuplicatePreview(duplicates: seq<string>): (p: Preview)
    ensures |p.badges| == if |duplicates| < PreviewLimit then |duplicates| else PreviewLimit
    ensures forall i :: 0 <= i < |p.badges| ==> p.badges[i] == ShortAddress(duplicates[i])
    ensures p.more.Some? <==> |duplicates| > PreviewLimit
    ensures p.more.Some? ==> |p.badges| + p.more.value == |duplicates|
  {
    var shown := if |duplicates| <= PreviewLimit then duplicates else duplicates[..PreviewLimit];
    Preview(seq(|shown|, i requires 0 <= i < |shown| => ShortAddress(shown[i])),
            if |duplicates| > PreviewLimit then Some(|duplicates| - PreviewLimit) else None)
  }

  /**
   * The input checks of `analyzeAddresses`, in order: blank text, text that
   * parses to nothing, then an address `new PublicKey` refuses.
   */
  function InputError(text: string, publicKeys: iset<string>): (e: Option<Notice>)
    ensures e.None? <==> ParseAddresses(text) != [] && AllPublicKeys(ParseAddresses(text), publicKeys)
    ensures e == Some(EnterAtLeastOne) <==> ParseAddresses(text) == []
    ensures e.Some? && ParseAddresses(text) != [] ==> e == Some(SomeInvalid)
  {
    ParseEmptyIffBlank(text);
    if Trim(text) == "" then Some(EnterAtLeastOne)
    else
      var list := ParseAddresses(text);
      if |list| == 0 then Some(EnterAtLeastOne)
      else if !AllPublicKeys(list, publicKeys) then Some(SomeInvalid)
      else None
  }

  /**
   * `handleExtendLUT`'s choice: the unique addresses of the analysis its
   * closure sees if there is one, else the whole parse.
   */
  function AddressesToExtend(analysis: Option<DuplicateAnalysis>, text: string): (r: seq<string>)
    ensures analysis.Some? ==> r == analysis.value.uniqueAddresses
    ensures analysis.None? ==> (r == [] <==> AllWhitespace(text))
    ensures analysis.None? ==> forall k :: 0 <= k < |r| ==> r[k] != "" && '\n' !in r[k]
  {
    ParseEmptyIffBlank(text);
    ParseAddressesEntries(text);
    if analysis.Some? then analysis.value.uniqueAddresses else ParseAddresses(text)
  }

  /** The error `handleExtendLUT` reports after it has started loading: table address first, then the addresses. */
  function SubmissionError(lutAddress: string, keys: seq<string>, publicKeys: iset<string>): (e: Option<Notice>)
    ensures e.None? <==> lutAddress != "" && lutAddress in publicKeys && AllPublicKeys(keys, publicKeys)
    ensures TableAddressError(lutAddress, publicKeys).Some? ==> e == TableAddressError(lutAddress, publicKeys)
    ensures TableAddressError(lutAddress, publicKeys).None? ==> e == InvalidAddressError(keys, publicKeys)
  {
    if TableAddressError(lutAddress, publicKeys).Some? then TableAddressError(lutAddress, publicKeys)
    else InvalidAddressError(keys, publicKeys)
  }

  /** Two table addresses long enough for the fetch effect to load them. */
  const FirstTable := "11111111111111111111111111111111"
  const SecondTable := "22222222222222222222222222222222"

  /**
   * Mounts the view on a table holding B, with a text that parses to B and C,
   * and analyses it: the confirmation for the duplicate B is shown.
   */
  method AnalyzedAgainstFirst(publicKeys: iset<string>, text: string) returns (view: ExtendLut)
    requires iset{"B", "C", FirstTable, SecondTable} <= publicKeys
    requires ParseAddresses(text) == ["B", "C"]
    ensures fresh(view) && view.Valid()
    ensures view.Props() == (FirstTable, text, "devnet", true, true)
    ensures view.loadedLut == Some(FirstTable)
    ensures view.duplicateAnalysis == Some(DuplicateAnalysis(["C"], ["B"]))
  {
    view := new ExtendLut(FirstTable, text, "devnet", true, true);
    var requested := view.FetchLutAddresses(publicKeys, Found(["B"]));
    IndexEntriesRoundTrip(["B"]);
    assert AddressSet(view.currentAddresses) == {"B"};
    var list := ["B", "C"];
    assert list[..1] == ["B"];
    assert Analyze(list, {"B"}) == DuplicateAnalysis(["C"], ["B"]);
    InputAccepted(publicKeys, text);
    var submitted := view.HandleAnalyzeAndExtend(publicKeys);
  }

  /**
   * The state the stale read needs, reached through the component's own
   * events: the text is analysed against a table holding B, the confirmation
   * is cancelled, and the table address is switched to a table holding
   * nothing. The analysis from the first table is still recorded.
   */
  method StaleState(publicKeys: iset<string>, text: string) returns (view: ExtendLut)
    requires iset{"B", "C", FirstTable, SecondTable} <= publicKeys
    requires ParseAddresses(text) == ["B", "C"]
    ensures fresh(view) && view.Valid()
    ensures view.Props() == (SecondTable, text, "devnet", true, true)
    ensures view.currentAddresses == [] && !view.showConfirmation
    ensures view.duplicateAnalysis == Some(DuplicateAnalysis(["C"], ["B"]))
  {
    view := AnalyzedAgainstFirst(publicKeys, text);
    view.Cancel();
    var due := view.EditLutAddress(SecondTable);
    var requested := view.FetchLutAddresses(publicKeys, Found([]));
  }

  /** A text that parses to B and C passes the input checks when both are keys. */
  lemma InputAccepted(publicKeys: iset<string>, text: string)
    requires iset{"B", "C"} <= publicKeys
    requires ParseAddresses(text) == ["B", "C"]
    ensures InputError(text, publicKeys) == None
  {
  }

  /** From the stale state, the handler as written submits only C. */
  method AsWrittenFromStale(publicKeys: iset<string>, text: string) returns (submitted: Option<Submission>)
    requires iset{"B", "C", FirstTable, SecondTable} <= publicKeys
    requires ParseAddresses(text) == ["B", "C"]
    ensures submitted == Some(Submission(SecondTable, ["C"]))
  {
    var view := StaleState(publicKeys, text);
    InputAccepted(publicKeys, text);
    var list := ["B", "C"];
    assert AddressSet(view.currentAddresses) == {};
    assert list[..1] == ["B"];
    assert ParseAddresses(view.addresses) == list;
    assert Unique(list, {}) == list;
    assert Duplicates(list, {}) == [];
    assert Analyze(ParseAddresses(view.addresses), AddressSet(view.currentAddresses)) == DuplicateAnalysis(list, []);
    submitted := view.HandleAnalyzeAndExtendAsWritten(publicKeys);
  }

  /** From the stale state, the handler as intended submits B and C. */
  method IntendedFromStale(publicKeys: iset<string>, text: string) returns (submitted: Option<Submission>)
    requires iset{"B", "C", FirstTable, SecondTable} <= publicKeys
    requires ParseAddresses(text) == ["B", "C"]
    ensures submitted == Some(Submission(SecondTable, ["B", "C"]))
  {
    var view := StaleState(publicKeys, text);
    InputAccepted(publicKeys, text);
    var list := ["B", "C"];
    assert AddressSet(view.currentAddresses) == {};
    assert list[..1] == ["B"];
    assert ParseAddresses(view.addresses) == list;
    assert Unique(list, {}) == list;
    assert Duplicates(list, {}) == [];
    assert Analyze(ParseAddresses(view.addresses), AddressSet(view.currentAddresses)) == DuplicateAnalysis(list, []);
    submitted := view.HandleAnalyzeAndExtend(publicKeys);
  }

  /**
   * From that state, `handleAnalyzeAndExtend` as written submits only C,
   * although its own analysis finds no duplicate: B is dropped. As intended
   * it submits the whole parse, B and C.
   */
  method StaleAnalysisDropsAddresses() returns (asWritten: Option<Submission>, intended: Option<Submission>)
    ensures asWritten == Some(Submission(SecondTable, ["C"]))
    ensures intended == Some(Submission(SecondTable, ["B", "C"]))
  {
    var publicKeys := iset{"B", "C", FirstTable, SecondTable};
    ParseTwoLines();
    asWritten := AsWrittenFromStale(publicKeys, "B\nC");
    intended := IntendedFromStale(publicKeys, "B\nC");
  }

  /** The text of the example above parses to its two lines. */
  lemma ParseTwoLines()
    ensures ParseAddresses("B\nC") == ["B", "C"]
  {
    assert "B\nC" == "B" + "\n" + "C";
    ParseAddressesAppend("B", "C");
    ParseLetter('B');
    ParseLetter('C');
  }

  /** A line of one visible character parses to itself. */
  lemma ParseLetter(c: char)
    requires !IsWhitespace(c) && c != '\n'
    ensures ParseAddresses([c]) == [[c]]
  {
    ParseAddressesLine([c]);
    assert SkipForward([c], 0) == 0 && SkipBackward([c], 1) == 1;
    assert [c][0..1] == [c];
  }

  class ExtendLut {
    // props and context
    var lutAddress: string
    var addresses: string
    var endpoint: string
    var hasPublicKey: bool
    var canSign: bool
    // component state
    var isLoading: bool
    var isLoadingLut: bool
    var error: Option<Notice>
    var success: Option<Notice>
    var currentAddresses: seq<LutEntry>
    var duplicateAnalysis: Option<DuplicateAnalysis>
    var showConfirmation: bool
    /** `loadedLutRef.current`: the table address whose rows were last loaded. */
    var loadedLut: Option<string>
    /** Extend transactions built and still awaiting signing, sending and confirmation. */
    var inFlight: seq<Submission>

    ghost predicate Valid()
      reads this
    {
      && WellIndexed(currentAddresses)
      && (showConfirmation ==> duplicateAnalysis.Some? && duplicateAnalysis.value.duplicateAddresses != [])
      && (loadedLut.Some? ==> !TooShort(loadedLut.value))
    }

    /** What the parent page and the wallet own. */
    function Props(): (string, string, string, bool, bool)
      reads this
    {
      (lutAddress, addresses, endpoint, hasPublicKey, canSign)
    }

    /** The table rows and the fetch memo. */
    function Snapshot(): (seq<LutEntry>, Option<string>, bool)
      reads this
    {
      (currentAddresses, loadedLut, isLoadingLut)
    }

    /** `publicKey && signTransaction`. */
    predicate WalletReady()
      reads this
    {
      hasPublicKey && canSign
    }

    /** The state on mount; the fetch effect then runs as `FetchLutAddresses`. */
    constructor(lutAddress: string, addresses: string, endpoint: string, hasPublicKey: bool, canSign: bool)
      ensures Valid()
      ensures Props() == (lutAddress, addresses, endpoint, hasPublicKey, canSign)
      ensures !isLoading && !isLoadingLut && error == None && success == None
      ensures currentAddresses == [] && duplicateAnalysis == None && !showConfirmation
      ensures loadedLut == None && inFlight == []
    {
      this.lutAddress, this.addresses, this.endpoint := lutAddress, addresses, endpoint;
      this.hasPublicKey, this.canSign := hasPublicKey, canSign;
      isLoading, isLoadingLut := false, false;
      error, success := None, None;
      currentAddresses, duplicateAnalysis, showConfirmation := [], None, false;
      loadedLut, inFlight := None, [];
    }

    /**
     * The parent changes the table address. Nothing else changes: neither the
     * analysis nor the memo. Returns whether the fetch effect is due.
     */
    method EditLutAddress(s: string) returns (effectDue: bool)
      requires Valid()
      modifies this
      ensures Valid()
      ensures lutAddress == s && effectDue == (s != old(lutAddress))
      ensures (addresses, endpoint, hasPublicKey, canSign) == old((addresses, endpoint, hasPublicKey, canSign))
      ensures Snapshot() == old(Snapshot())
      ensures (isLoading, error, success, duplicateAnalysis, showConfirmation, inFlight)
              == old((isLoading, error, success, duplicateAnalysis, showConfirmation, inFlight))
    {
      effectDue := s != lutAddress;
      lutAddress := s;
    }

    /** The selected network's endpoint changes; the memo is kept. Returns whether the fetch effect is due. */
    method ChangeEndpoint(e: string) returns (effectDue: bool)
      requires Valid()
      modifies this
      ensures Valid()
      ensures endpoint == e && effectDue == (e != old(endpoint))
      ensures (lutAddress, addresses, hasPublicKey, canSign) == old((lutAddress, addresses, hasPublicKey, canSign))
      ensures Snapshot() == old(Snapshot())
      ensures (isLoading, error, success, duplicateAnalysis, showConfirmation, inFlight)
              == old((isLoading, error, success, duplicateAnalysis, showConfirmation, inFlight))
    {
      effectDue := e != endpoint;
      endpoint := e;
    }

    /**
     * The fetch effect `fetchLutAddresses`, with the awaited
     * `getAddressLookupTable` as `outcome`. Returns whether it reached the network.
     */
    method FetchLutAddresses(publicKeys: iset<string>, outcome: FetchOutcome) returns (requested: bool)
      requires Valid()
      modifies this
      ensures Valid()
      ensures Props() == old(Props())
      ensures (isLoading, success, duplicateAnalysis, showConfirmation, inFlight)
              == old((isLoading, success, duplicateAnalysis, showConfirmation, inFlight))
      ensures requested <==> !TooShort(lutAddress) && old(loadedLut) != Some(lutAddress) && lutAddress in publicKeys
      // too short: the rows are cleared, the memo is not
      ensures TooShort(lutAddress) ==>
                currentAddresses == [] && loadedLut == old(loadedLut)
                && isLoadingLut == old(isLoadingLut) && error == old(error)
      // the memo holds this address: nothing happens
      ensures !TooShort(lutAddress) && old(loadedLut) == Some(lutAddress) ==> Snapshot() == old(Snapshot()) && error == old(error)
      // a load was attempted
      ensures !TooShort(lutAddress) && old(loadedLut) != Some(lutAddress) ==> !isLoadingLut && error == None
      ensures !TooShort(lutAddress) && old(loadedLut) != Some(lutAddress) && lutAddress !in publicKeys ==>
                currentAddresses == [] && loadedLut == old(loadedLut)
      ensures requested ==>
                match outcome
                case Found(keys) => currentAddresses == IndexEntries(keys) && loadedLut == Some(lutAddress)
                case NotFound => currentAddresses == [] && loadedLut == old(loadedLut)
                case FetchFailed(_) => currentAddresses == old(currentAddresses) && loadedLut == old(loadedLut)
      // the memo key changes only to a table that was found
      ensures loadedLut != old(loadedLut) ==> requested && outcome.Found? && loadedLut == Some(lutAddress)
    {
      requested := false;
      if lutAddress == "" || |lutAddress| < MinLutAddressLength {
        currentAddresses := [];
        return;
      }
      if loadedLut == Some(lutAddress) {
        return;
      }
      isLoadingLut := true;
      error := None;
      if lutAddress !in publicKeys {
        currentAddresses := [];
        isLoadingLut := false;
        return;
      }
      requested := true;
      match outcome {
        case NotFound =>
          currentAddresses := [];
        case Found(keys) =>
          currentAddresses := IndexEntries(keys);
          loadedLut := Some(lutAddress);
        case FetchFailed(_) =>
      }
      isLoadingLut := false;
    }

    /** The parent changes the address text; the reset effect then drops the analysis and hides the confirmation. */
    method EditAddresses(s: string)
      requires Valid()
      modifies this
      ensures Valid()
      ensures addresses == s
      ensures (lutAddress, endpoint, hasPublicKey, canSign) == old((lutAddress, endpoint, hasPublicKey, canSign))
      ensures Snapshot() == old(Snapshot())
      ensures (isLoading, error, success, inFlight) == old((isLoading, error, success, inFlight))
      ensures s != old(addresses) ==> duplicateAnalysis == None && !showConfirmation
      ensures s == old(addresses) ==> duplicateAnalysis == old(duplicateAnalysis) && showConfirmation == old(showConfirmation)
    {
      if s != addresses {
        duplicateAnalysis := None;
        showConfirmation := false;
      }
      addresses := s;
    }

    /**
     * `analyzeAddresses`: reports blank or invalid input, else records the
     * analysis against the current rows and asks for confirmation when it
     * finds duplicates. Returns whether the extension may go ahead.
     */
    method AnalyzeAddresses(publicKeys: iset<string>) returns (canProceed: bool)
      requires Valid() && !showConfirmation
      modifies this
      ensures Valid()
      ensures Props() == old(Props()) && Snapshot() == old(Snapshot())
      ensures (isLoading, success, inFlight) == old((isLoading, success, inFlight))
      ensures InputError(addresses, publicKeys).Some? ==>
                && !canProceed && error == InputError(addresses, publicKeys)
                && duplicateAnalysis == old(duplicateAnalysis) && !showConfirmation
      ensures InputError(addresses, publicKeys).None? ==>
                var analysis := Analyze(ParseAddresses(addresses), AddressSet(currentAddresses));
                && duplicateAnalysis == Some(analysis) && error == old(error)
                && (canProceed <==> analysis.duplicateAddresses == [])
                && (showConfirmation <==> analysis.duplicateAddresses != [])
    {
      var problem := InputError(addresses, publicKeys);
      if problem.Some? {
        error := problem;
        return false;
      }
      canProceed := RecordAnalysis();
    }

    /**
     * The second half of `analyzeAddresses`: the partition of the parse
     * against the current rows is recorded, and the confirmation is shown
     * exactly when it finds duplicates.
     */
    method RecordAnalysis() returns (canProceed: bool)
      requires Valid()
      modifies this
      ensures Valid()
      ensures Props() == old(Props()) && Snapshot() == old(Snapshot())
      ensures (isLoading, error, success, inFlight) == old((isLoading, error, success, inFlight))
      ensures var analysis := Analyze(ParseAddresses(addresses), AddressSet(currentAddresses));
              && duplicateAnalysis == Some(analysis)
              && (canProceed <==> analysis.duplicateAddresses == [])
              && (showConfirmation <==> analysis.duplicateAddresses != [])
    {
      var unique, duplicates := Partition(ParseAddresses(addresses), AddressSet(currentAddresses));
      duplicateAnalysis := Some(DuplicateAnalysis(unique, duplicates));
      showConfirmation := |duplicates| > 0;
      canProceed := |duplicates| == 0;
    }

    /**
     * The part of `handleExtendLUT` that runs before its first `await`: the
     * wallet and emptiness gates, then loading, the table address and the
     * addresses, and finally the extend instruction, which joins `inFlight`.
     * Nothing here looks at `isLoading`. `analysis` is the `duplicateAnalysis`
     * of the render whose closure runs: the Proceed button passes the current
     * one, `handleAnalyzeAndExtend` the one from before its own analysis.
     */
    method HandleExtendLut(publicKeys: iset<string>, analysis: Option<DuplicateAnalysis>) returns (submitted: Option<Submission>)
      requires Valid()
      modifies this
      ensures Valid()
      ensures Props() == old(Props()) && Snapshot() == old(Snapshot())
      ensures duplicateAnalysis == old(duplicateAnalysis) && showConfirmation == old(showConfirmation)
      ensures var toExtend := AddressesToExtend(analysis, addresses);
              if !WalletReady() then
                && submitted == None && error == Some(WalletNotConnected)
                && success == old(success) && isLoading == old(isLoading) && inFlight == old(inFlight)
              else if toExtend == [] then
                && submitted == None && error == Some(NothingToAdd)
                && success == old(success) && isLoading == old(isLoading) && inFlight == old(inFlight)
              else
                var problem := SubmissionError(lutAddress, toExtend, publicKeys);
                && success == None
                && (problem.Some? ==> submitted == None && error == problem && !isLoading && inFlight == old(inFlight))
                && (problem.None? ==>
                      && submitted == Some(Submission(lutAddress, toExtend)) && error == None && isLoading
                      && inFlight == old(inFlight) + [Submission(lutAddress, toExtend)])
    {
      if !(hasPublicKey && canSign) {
        error := Some(WalletNotConnected);
        return None;
      }
      var toExtend := AddressesToExtend(analysis, addresses);
      if |toExtend| == 0 {
        error := Some(NothingToAdd);
        return None;
      }
      submitted := StartExtend(publicKeys, toExtend);
    }

    /**
     * `handleExtendLUT` once it holds a non-empty list: loading starts, the
     * table address and then the addresses are checked, and the extend
     * instruction for exactly that list joins `inFlight`.
     */
    method StartExtend(publicKeys: iset<string>, toExtend: seq<string>) returns (submitted: Option<Submission>)
      requires Valid()
      modifies this
      ensures Valid()
      ensures Props() == old(Props()) && Snapshot() == old(Snapshot())
      ensures duplicateAnalysis == old(duplicateAnalysis) && showConfirmation == old(showConfirmation)
      ensures success == None
      ensures var problem := SubmissionError(lutAddress, toExtend, publicKeys);
              && (problem.Some? ==> submitted == None && error == problem && !isLoading && inFlight == old(inFlight))
              && (problem.None? ==>
                    && submitted == Some(Submission(lutAddress, toExtend)) && error == None && isLoading
                    && inFlight == old(inFlight) + [Submission(lutAddress, toExtend)])
    {
      isLoading := true;
      error := None;
      success := None;
      var problem := TableAddressError(lutAddress, publicKeys);
      if problem.None? {
        problem := InvalidAddressError(toExtend, publicKeys);
      }
      if problem.Some? {
        error := problem;
        isLoading := false;
        return None;
      }
      var submission := Submission(lutAddress, toExtend);
      inFlight := inFlight + [submission];
      submitted := Some(submission);
    }

    /**
     * The rest of `handleExtendLUT` for the in-flight submission `i`: the
     * awaited signing, sending and confirmation (`result`), then the refresh
     * of the rows (`refresh`, used only after confirmation).
     */
    method FinishExtend(i: nat, result: SubmitResult, refresh: FetchOutcome)
      requires Valid() && i < |inFlight|
      modifies this
      ensures Valid()
      ensures Props() == old(Props()) && loadedLut == old(loadedLut) && isLoadingLut == old(isLoadingLut)
      ensures inFlight == old(inFlight[..i] + inFlight[i + 1..])
      ensures !isLoading
      ensures result.SubmitFailed? ==> error == Some(ExtendFailed(result.failure)) && success == old(success)
      ensures result.SubmitFailed? ==> Snapshot() == old(Snapshot())
      ensures result.SubmitFailed? ==> duplicateAnalysis == old(duplicateAnalysis) && showConfirmation == old(showConfirmation)
      ensures result.Confirmed? ==> success == Some(Extended(|old(inFlight[i]).keys|))
      ensures result.Confirmed? ==> duplicateAnalysis == None && !showConfirmation
      ensures result.Confirmed? ==> currentAddresses == (if refresh.Found? then IndexEntries(refresh.keys) else old(currentAddresses))
      ensures result.Confirmed? ==> error == (if refresh.FetchFailed? then Some(ExtendFailed(refresh.failure)) else old(error))
    {
      var submission := inFlight[i];
      inFlight := inFlight[..i] + inFlight[i + 1..];
      match result {
        case SubmitFailed(f) =>
          error := Some(ExtendFailed(f));
        case Confirmed =>
          success := Some(Extended(|submission.keys|));
          showConfirmation := false;
          duplicateAnalysis := None;
          match refresh {
            case Found(keys) =>
              currentAddresses := IndexEntries(keys);
            case NotFound =>
            case FetchFailed(f) =>
              error := Some(ExtendFailed(f));
          }
      }
      isLoading := false;
    }

    /**
     * `handleAnalyzeAndExtend` as intended, with `handleExtendLUT` reading the
     * analysis just made: a no-op apart from clearing the banners while the
     * confirmation is shown; else the analysis, and, when it finds no
     * duplicates, the extension of the whole parsed list. The handler as
     * written is `HandleAnalyzeAndExtendAsWritten`.
     */
    method HandleAnalyzeAndExtend(publicKeys: iset<string>) returns (submitted: Option<Submission>)
      requires Valid()
      modifies this
      ensures Valid()
      ensures Props() == old(Props()) && Snapshot() == old(Snapshot())
      ensures success == None
      ensures old(showConfirmation) ==>
                && submitted == None && error == None && showConfirmation
                && (isLoading, duplicateAnalysis, inFlight) == old((isLoading, duplicateAnalysis, inFlight))
      ensures !old(showConfirmation) && InputError(addresses, publicKeys).Some? ==>
                && submitted == None && error == InputError(addresses, publicKeys) && !showConfirmation
                && (isLoading, duplicateAnalysis, inFlight) == old((isLoading, duplicateAnalysis, inFlight))
      ensures !old(showConfirmation) && InputError(addresses, publicKeys).None? ==>
                var analysis := Analyze(ParseAddresses(addresses), AddressSet(currentAddresses));
                && duplicateAnalysis == Some(analysis)
                && (showConfirmation <==> analysis.duplicateAddresses != [])
                && (submitted.Some? <==> analysis.duplicateAddresses == [] && WalletReady() && TableAddressError(lutAddress, publicKeys).None?)
                && (analysis.duplicateAddresses != [] ==> error == None && isLoading == old(isLoading))
                && (analysis.duplicateAddresses == [] && !WalletReady() ==> error == Some(WalletNotConnected) && isLoading == old(isLoading))
                && (analysis.duplicateAddresses == [] && WalletReady() ==>
                      error == TableAddressError(lutAddress, publicKeys) && isLoading == submitted.Some?)
                && inFlight == old(inFlight) + (if submitted.Some? then [submitted.value] else [])
      // what is submitted is exactly the parsed list, in order and with its repeats, for the current table
      ensures submitted.Some? ==> submitted.value == Submission(lutAddress, ParseAddresses(addresses))
    {
      error := None;
      success := None;
      if showConfirmation {
        return None;
      }
      var canProceed := AnalyzeAddresses(publicKeys);
      submitted := None;
      if canProceed {
        var list := ParseAddresses(addresses);
        NoDuplicatesKeepsAll(list, AddressSet(currentAddresses));
        submitted := HandleExtendLut(publicKeys, duplicateAnalysis);
      }
    }

    /**
     * `handleAnalyzeAndExtend` as written: the `handleExtendLUT` it calls
     * belongs to the same render, so it chooses the addresses from
     * `duplicateAnalysis` as it was before `analyzeAddresses` recorded the new
     * analysis, which only a later render sees.
     */
    method HandleAnalyzeAndExtendAsWritten(publicKeys: iset<string>) returns (submitted: Option<Submission>)
      requires Valid()
      modifies this
      ensures Valid()
      ensures Props() == old(Props()) && Snapshot() == old(Snapshot())
      ensures success == None
      ensures old(showConfirmation) ==>
                && submitted == None && error == None && showConfirmation
                && (isLoading, duplicateAnalysis, inFlight) == old((isLoading, duplicateAnalysis, inFlight))
      ensures !old(showConfirmation) && InputError(addresses, publicKeys).Some? ==>
                && submitted == None && error == InputError(addresses, publicKeys) && !showConfirmation
                && (isLoading, duplicateAnalysis, inFlight) == old((isLoading, duplicateAnalysis, inFlight))
      ensures !old(showConfirmation) && InputError(addresses, publicKeys).None? ==>
                var analysis := Analyze(ParseAddresses(addresses), AddressSet(currentAddresses));
                var stale := AddressesToExtend(old(duplicateAnalysis), addresses);
                && duplicateAnalysis == Some(analysis)
                && (showConfirmation <==> analysis.duplicateAddresses != [])
                && (submitted.Some? <==>
                      analysis.duplicateAddresses == [] && WalletReady() && stale != []
                      && SubmissionError(lutAddress, stale, publicKeys).None?)
                && (analysis.duplicateAddresses != [] ==> error == None && isLoading == old(isLoading))
                && (analysis.duplicateAddresses == [] && !WalletReady() ==> error == Some(WalletNotConnected) && isLoading == old(isLoading))
                && (analysis.duplicateAddresses == [] && WalletReady() && stale == [] ==>
                      error == Some(NothingToAdd) && isLoading == old(isLoading))
                && (analysis.duplicateAddresses == [] && WalletReady() && stale != [] ==>
                      error == SubmissionError(lutAddress, stale, publicKeys) && isLoading == submitted.Some?)
                && inFlight == old(inFlight) + (if submitted.Some? then [submitted.value] else [])
      // what is submitted is chosen by the analysis from before this call
      ensures submitted.Some? ==> submitted.value == Submission(lutAddress, AddressesToExtend(old(duplicateAnalysis), addresses))
    {
      var stale := duplicateAnalysis;
      error := None;
      success := None;
      if showConfirmation {
        return None;
      }
      var canProceed := AnalyzeAddresses(publicKeys);
      submitted := None;
      if canProceed {
        submitted := HandleExtendLut(publicKeys, stale);
      }
    }

    /** The Cancel button of the confirmation panel. */
    method Cancel()
      requires Valid()
      modifies this
      ensures Valid()
      ensures !showConfirmation
      ensures Props() == old(Props()) && Snapshot() == old(Snapshot())
      ensures (isLoading, error, success, duplicateAnalysis, inFlight) == old((isLoading, error, success, duplicateAnalysis, inFlight))
    {
      showConfirmation := false;
    }

    /**
     * The "Extend LUT" button: disabled while loading, without a wallet key,
     * without a table address or with blank text. When enabled, the text
     * parses to at least one address.
     */
    function MainButtonEnabled(): (enabled: bool)
      reads this
      ensures enabled <==> !isLoading && hasPublicKey && lutAddress != "" && Trim(addresses) != ""
      ensures enabled ==> ParseAddresses(addresses) != []
    {
      ParseEmptyIffBlank(addresses);
      !(isLoading || !hasPublicKey || lutAddress == "" || Trim(addresses) == "")
    }

    /** The confirmation panel is on screen. */
    predicate ConfirmationVisible()
      reads this
      // under the invariant the `duplicateAnalysis &&` guard is redundant
      ensures Valid() ==> (ConfirmationVisible() <==> showConfirmation)
    {
      showConfirmation && duplicateAnalysis.Some?
    }

    /** The Proceed button: shown with the panel, disabled only when nothing is unique; loading does not disable it. */
    function ProceedEnabled(): (enabled: bool)
      reads this
      ensures enabled <==> ConfirmationVisible() && duplicateAnalysis.value.uniqueAddresses != []
    {
      ConfirmationVisible() && |duplicateAnalysis.value.uniqueAddresses| != 0
    }

    /** What the panel previews of the duplicates, when it is shown. */
    function ConfirmationPreview(): (p: Option<Preview>)
      reads this
      ensures p.Some? <==> ConfirmationVisible()
      ensures p.Some? ==> p.value == DuplicatePreview(duplicateAnalysis.value.duplicateAddresses)
    {
      if ConfirmationVisible() then Some(DuplicatePreview(duplicateAnalysis.value.duplicateAddresses)) else None
    }
  }
}
