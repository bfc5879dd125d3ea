/**
 * What the three LUT views share: the bulk-address parse, the indexed rows
 * built from a fetched table, the outcomes of the network calls, and the
 * error texts the handlers report.
 *
 * Whether a string is a public key (`new PublicKey(s)` succeeding) is the
 * SDK's base-58 decode; every operation that needs it takes the set of
 * strings that decode, `publicKeys: iset<string>`.
 */
module Lut {
  import opened Wrappers
  import opened Strings

  /** Shortest table address the views react to while it is being typed. */
  const MinLutAddressLength := 32

  /** Something a `catch` block received: an `Error` with its message, or any other thrown value. */
  datatype Failure = ErrorWithMessage(message: string) | OtherThrown

  /** `err instanceof Error ? err.message : fallback`. */
  function FailureText(f: Failure, fallback: string): (r: string)
    ensures f.ErrorWithMessage? ==> r == f.message
    ensures f.OtherThrown? ==> r == fallback
  {
    match f
    case ErrorWithMessage(m) => m
    case OtherThrown => fallback
  }

  /** The error and success banners the three views show; `Text` gives each one's wording. */
  datatype Notice =
    | WalletNotConnected
    | EnterAtLeastOne
    | LutRequired
    | InvalidLut
    | InvalidAddress(address: string)
    | SomeInvalid
    | NothingToAdd
    | LutNotFound
    | CreateFailed(failure: Failure)
    | ExtendFailed(failure: Failure)
    | ViewFailed(failure: Failure)
    | Created(table: string)
    | Extended(count: nat)

  function Text(n: Notice): (r: string)
    // only a thrown `Error` whose message is empty gives an empty text, which `{error && ...}` then does not render
    ensures r == "" ==> (n.CreateFailed? || n.ExtendFailed? || n.ViewFailed?) && n.failure == ErrorWithMessage("")
  {
    match n
    case WalletNotConnected => "Wallet not connected"
    case EnterAtLeastOne => "Please enter at least one address"
    case LutRequired => "LUT address is required"
    case InvalidLut => "Invalid LUT address"
    case InvalidAddress(a) => "Invalid address: " + a
    case SomeInvalid => "One or more addresses are invalid"
    case NothingToAdd => "No new addresses to add"
    case LutNotFound => "LUT not found"
    case CreateFailed(f) => FailureText(f, "Failed to create LUT")
    case ExtendFailed(f) => FailureText(f, "Failed to extend LUT")
    case ViewFailed(f) => FailureText(f, "Failed to view LUT")
    case Created(table) => "LUT created successfully! Address: " + table
    case Extended(count) => "LUT extended successfully! " + NatToString(count) + " addresses added."
  }

  /** The banner of an extension names the number of addresses added, and that number can be read back from it. */
  lemma ExtendedTextCount(count: nat)
    ensures var t := Text(Extended(count));
            var prefix := "LUT extended successfully! ";
            var digits := NatToString(count);
            && t[..|prefix|] == prefix
            && t[|prefix|..|prefix| + |digits|] == digits
            && DecimalValue(digits) == count
  {
    DecimalRoundTrip(count);
  }

  /** The banner of a creation ends with the new table's address. */
  lemma CreatedTextTable(table: string)
    ensures var t := Text(Created(table));
            |t| >= |table| && t[|t| - |table|..] == table
  {
  }

  /** What `getAddressLookupTable` yields: the table's keys in base 58, no table, or a thrown failure. */
  datatype FetchOutcome = Found(keys: seq<string>) | NotFound | FetchFailed(failure: Failure)

  /** What signing, sending and confirming a transaction yields. */
  datatype SubmitResult = Confirmed | SubmitFailed(failure: Failure)

  /** One row of a displayed table: its position and its base-58 address. */
  datatype LutEntry = LutEntry(index: nat, address: string)

  /** `keys.map((pubkey, index) => ({ index, address }))`, numbering from `start`. */
  function IndexFrom(keys: seq<string>, start: nat): (entries: seq<LutEntry>)
    ensures |entries| == |keys|
    ensures forall i :: 0 <= i < |keys| ==> entries[i].index == start + i && entries[i].address == keys[i]
  {
    if keys == [] then [] else [LutEntry(start, keys[0])] + IndexFrom(keys[1..], start + 1)
  }

  /** The rows shown for a fetched table. */
  function IndexEntries(keys: seq<string>): seq<LutEntry> {
    IndexFrom(keys, 0)
  }

  /** Row i carries index i. */
  predicate WellIndexed(entries: seq<LutEntry>) {
    forall i :: 0 <= i < |entries| ==> entries[i].index == i
  }

  /** The address column of a list of rows. */
  function Addresses(entries: seq<LutEntry>): (r: seq<string>)
    ensures |r| == |entries|
    ensures forall i :: 0 <= i < |entries| ==> r[i] == entries[i].address
  {
    if entries == [] then [] else [entries[0].address] + Addresses(entries[1..])
  }

  /** The membership set built from the rows: `new Set(rows.map((item) => item.address))`. */
  function AddressSet(entries: seq<LutEntry>): set<string> {
    set e | e in entries :: e.address
  }

  /** The membership set holds the address of every row and nothing else. */
  lemma AddressSetMembers(entries: seq<LutEntry>)
    ensures forall i :: 0 <= i < |entries| ==> entries[i].address in AddressSet(entries)
    ensures forall a :: a in AddressSet(entries) <==> exists i :: 0 <= i < |entries| && entries[i].address == a
  {
    forall a | a in AddressSet(entries)
      ensures exists i :: 0 <= i < |entries| && entries[i].address == a
    {
      var e :| e in entries && e.address == a;
      var i :| 0 <= i < |entries| && entries[i] == e;
    }
    forall i | 0 <= i < |entries|
      ensures entries[i].address in AddressSet(entries)
    {
      assert entries[i] in entries;
    }
  }

  /** The rows of a fetched table are numbered 0..n-1 and carry the table's keys in order. */
  lemma IndexEntriesRoundTrip(keys: seq<string>)
    ensures WellIndexed(IndexEntries(keys))
    ensures Addresses(IndexEntries(keys)) == keys
    ensures forall a :: a in AddressSet(IndexEntries(keys)) <==> a in keys
  {
    var entries := IndexEntries(keys);
    forall a ensures a in AddressSet(entries) <==> a in keys {
      if a in keys {
        var i :| 0 <= i < |keys| && keys[i] == a;
        assert entries[i] in entries;
      }
    }
  }

  /** `!a || a.length < 32`: too short for the views to fetch it automatically. */
  predicate TooShort(a: string)
    // the emptiness test adds nothing to the length test
    ensures TooShort(a) <==> |a| < MinLutAddressLength
  {
    a == "" || |a| < MinLutAddressLength
  }

  /** Trims every line and keeps the non-empty ones, in order. */
  function CleanLines(lines: seq<string>): (r: seq<string>)
    ensures |r| <= |lines|
  {
    if lines == [] then []
    else
      var t := Trim(lines[0]);
      (if t == "" then [] else [t]) + CleanLines(lines[1..])
  }

  /** Every kept entry is non-empty. */
  lemma {:induction false} CleanLinesNonEmpty(lines: seq<string>)
    ensures forall k :: 0 <= k < |CleanLines(lines)| ==> CleanLines(lines)[k] != ""
  {
    if lines != [] {
      CleanLinesNonEmpty(lines[1..]);
      var t := Trim(lines[0]);
      assert CleanLines(lines) == (if t == "" then [] else [t]) + CleanLines(lines[1..]);
    }
  }

  /** Every kept entry is the trimmed form of one of the lines. */
  lemma {:induction false} CleanLinesEntries(lines: seq<string>)
    ensures forall k :: 0 <= k < |CleanLines(lines)| ==> exists j :: 0 <= j < |lines| && CleanLines(lines)[k] == Trim(lines[j])
  {
    if lines != [] {
      CleanLinesEntries(lines[1..]);
      var t, rest := Trim(lines[0]), CleanLines(lines[1..]);
      var r := CleanLines(lines);
      var h := if t == "" then [] else [t];
      assert r == h + rest;
      forall k | 0 <= k < |r| ensures exists j :: 0 <= j < |lines| && r[k] == Trim(lines[j]) {
        if k < |h| {
          assert r[k] == Trim(lines[0]);
        } else {
          assert r[k] == rest[k - |h|];
          var j :| 0 <= j < |lines[1..]| && rest[k - |h|] == Trim(lines[1..][j]);
          assert lines[j + 1] == lines[1..][j];
        }
      }
    } else {
      assert CleanLines(lines) == [];
    }
  }

  lemma {:induction false} CleanLinesAppend(a: seq<string>, b: seq<string>)
    ensures CleanLines(a + b) == CleanLines(a) + CleanLines(b)
  {
    if a != [] {
      var ab := a + b;
      assert ab[0] == a[0] && ab[1..] == a[1..] + b;
      CleanLinesAppend(a[1..], b);
      var h := if Trim(a[0]) == "" then [] else [Trim(a[0])];
      assert CleanLines(ab) == h + CleanLines(a[1..] + b);
      assert CleanLines(a) == h + CleanLines(a[1..]);
    } else {
      assert a + b == b;
    }
  }

  /** `text.split("\n").map((addr) => addr.trim()).filter((addr) => addr.length > 0)`. */
  function ParseAddresses(text: string): (r: seq<string>)
    ensures |r| <= |SplitLines(text)|
  {
    CleanLines(SplitLines(text))
  }

  /** Every parsed entry is non-empty, has no surrounding whitespace and no newline. */
  lemma ParseAddressesEntries(text: string)
    ensures forall k :: 0 <= k < |ParseAddresses(text)| ==>
              var a := ParseAddresses(text)[k];
              a != "" && Trim(a) == a && '\n' !in a
  {
    var lines := SplitLines(text);
    var list := ParseAddresses(text);
    SplitLinesInverse(text);
    CleanLinesNonEmpty(lines);
    CleanLinesEntries(lines);
    forall k | 0 <= k < |list| ensures list[k] != "" && Trim(list[k]) == list[k] && '\n' !in list[k] {
      var j :| 0 <= j < |lines| && list[k] == Trim(lines[j]);
      TrimIdempotent(lines[j]);
      TrimChars(lines[j], '\n');
    }
  }

  /** Text made of newline-free lines parses to exactly the cleaned lines: the non-blank ones, trimmed, in order. */
  lemma ParseJoined(lines: seq<string>)
    requires |lines| >= 1
    requires forall k :: 0 <= k < |lines| ==> '\n' !in lines[k]
    ensures ParseAddresses(JoinLines(lines)) == CleanLines(lines)
  {
    SplitJoin(lines);
  }

  /** The parse of two blocks of lines joined by a newline is the two parses, in order. */
  lemma ParseAddressesAppend(a: string, b: string)
    ensures ParseAddresses(a + "\n" + b) == ParseAddresses(a) + ParseAddresses(b)
  {
    SplitLinesAppend(a, b);
    CleanLinesAppend(SplitLines(a), SplitLines(b));
  }

  /** A single line parses to its trimmed self, or to nothing when it is blank. */
  lemma ParseAddressesLine(a: string)
    requires '\n' !in a
    ensures ParseAddresses(a) == if Trim(a) == "" then [] else [Trim(a)]
  {
    SplitLinesSingle(a);
    assert CleanLines([a]) == (if Trim(a) == "" then [] else [Trim(a)]) + CleanLines([]);
  }

  lemma {:induction false} CleanLinesEmpty(lines: seq<string>)
    requires |lines| >= 1
    ensures CleanLines(lines) == [] <==> AllWhitespace(JoinLines(lines))
  {
    TrimEmptyIffBlank(lines[0]);
    if |lines| == 1 {
      assert CleanLines(lines) == (if Trim(lines[0]) == "" then [] else [Trim(lines[0])]) + CleanLines([]);
    } else {
      CleanLinesEmpty(lines[1..]);
      var j := JoinLines(lines[1..]);
      var s := lines[0] + "\n" + j;
      assert AllWhitespace(s) <==> AllWhitespace(lines[0]) && AllWhitespace(j) by {
        if AllWhitespace(s) {
          forall k | 0 <= k < |lines[0]| ensures IsWhitespace(lines[0][k]) { assert s[k] == lines[0][k]; }
          forall k | 0 <= k < |j| ensures IsWhitespace(j[k]) { assert s[|lines[0]| + 1 + k] == j[k]; }
        }
      }
    }
  }

  /**
   * The parse is empty exactly when the text is blank, so the component's two
   * "enter at least one address" checks (blank text, empty parse) agree.
   */
  lemma ParseEmptyIffBlank(text: string)
    ensures ParseAddresses(text) == [] <==> AllWhitespace(text)
    ensures ParseAddresses(text) == [] <==> Trim(text) == ""
  {
    SplitLinesInverse(text);
    CleanLinesEmpty(SplitLines(text));
    TrimEmptyIffBlank(text);
  }

  /** Every entry is a public key: `.map((addr) => new PublicKey(addr))` does not throw. */
  predicate AllPublicKeys(list: seq<string>, publicKeys: iset<string>) {
    forall k :: 0 <= k < |list| ==> list[k] in publicKeys
  }

  /** The first entry, in list order, that is not a public key: where `.map((addr) => new PublicKey(addr))` throws. */
  function FirstInvalid(list: seq<string>, publicKeys: iset<string>): (r: Option<string>)
    ensures r.None? <==> AllPublicKeys(list, publicKeys)
    ensures r.Some? ==> exists i :: 0 <= i < |list| && list[i] == r.value && list[i] !in publicKeys
                                    && forall j :: 0 <= j < i ==> list[j] in publicKeys
  {
    if list == [] then None
    else if list[0] !in publicKeys then Some(list[0])
    else
      var r := FirstInvalid(list[1..], publicKeys);
      assert r.Some? ==> exists i :: 0 <= i < |list| && list[i] == r.value && list[i] !in publicKeys
                                    && forall j :: 0 <= j < i ==> list[j] in publicKeys by {
        if r.Some? {
          var i :| 0 <= i < |list[1..]| && list[1..][i] == r.value && list[1..][i] !in publicKeys
                   && forall j :: 0 <= j < i ==> list[1..][j] in publicKeys;
          assert list[i + 1] == list[1..][i];
          assert forall j :: 0 <= j < i + 1 ==> list[j] in publicKeys by {
            forall j | 0 <= j < i + 1 ensures list[j] in publicKeys {
              if j > 0 { assert list[j] == list[1..][j - 1]; }
            }
          }
        }
      }
      r
  }

  /** The error `new PublicKey(lutAddress)` and the emptiness check report for a table address, if any. */
  function TableAddressError(lutAddress: string, publicKeys: iset<string>): (e: Option<Notice>)
    ensures e == Some(LutRequired) <==> lutAddress == ""
    ensures e == Some(InvalidLut) <==> lutAddress != "" && lutAddress !in publicKeys
    ensures e.None? <==> lutAddress != "" && lutAddress in publicKeys
  {
    if lutAddress == "" then Some(LutRequired)
    else if lutAddress !in publicKeys then Some(InvalidLut)
    else None
  }

  /** `Invalid address: <first invalid entry>`, or nothing when every entry is a key. */
  function InvalidAddressError(list: seq<string>, publicKeys: iset<string>): (e: Option<Notice>)
    ensures e.None? <==> AllPublicKeys(list, publicKeys)
    ensures e.Some? ==> e.value.InvalidAddress?
    ensures e.Some? ==> exists i :: 0 <= i < |list| && e.value.address == list[i] && list[i] !in publicKeys
                                    && forall j :: 0 <= j < i ==> list[j] in publicKeys
  {
    match FirstInvalid(list, publicKeys)
    case None => None
    case Some(a) => Some(InvalidAddress(a))
  }
}
