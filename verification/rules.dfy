/**
 * The registry rules as functions: what `scripts/validate.mjs` reports for a
 * parsed document. `Verdict` is the specification the imperative
 * `Validator.Validate` is proved against; `RegistryValid` is the declarative
 * description of an accepted registry.
 */
module Rules {
  import opened Json
  import opened Text
  import opened Sorting

  /** The first violation found; each carries the context its message prints. */
  datatype Failure =
    | NotAnObject                                   // line 13
    | NoTokensArray                                 // line 14
    | RecordNotObject(index: nat)                   // line 25
    | SymbolRequired(index: nat)                    // line 26
    | NameRequired(symbol: string)                  // line 27
    | DecimalsNotInteger(symbol: string)            // line 28
    | DecimalsOutOfRange(symbol: string)            // line 29
    | MintAuthorityRequired(symbol: string)         // line 30
    | MintAuthorityMalformed(symbol: string)        // line 31
    | UrlNotHttps(key: string, symbol: string)      // line 36
    | DuplicateSymbol(symbol: string)               // line 41
    | UnknownField(key: string, symbol: string)     // line 47
    | OutOfOrder(index: nat, symbol: string)        // line 55
  {
    /** Raised by the checks of one record (lines 25-48). */
    predicate OfRecord()
    {
      !(NotAnObject? || NoTokensArray? || OutOfOrder?)
    }
  }

  /** The verdict: success with the token count, or the first violation. */
  datatype Outcome = Accepted(count: nat) | Rejected(failure: Failure)

  const MaxDecimals: int := 18
  const UrlKeys: seq<string> := ["logo", "uri"]
  const AllowedKeys: seq<string> :=
    ["symbol", "name", "decimals", "mint_authority", "logo", "uri", "extensions", "chain"]

  predicate IsAllowedKey(key: string)
  {
    key in AllowedKeys
  }

  /** The record's `symbol` string, the key of the order check. */
  function SymbolOf(t: Json): string
  {
    StringValue(t, "symbol")
  }

  /** `typeof t.decimals === NumberType && t.decimals % 1 === 0`. */
  predicate HasIntegerDecimals(t: Json)
  {
    TypeOf(Get(t, "decimals")) == NumberType && Get(t, "decimals").value.n.Integral?
  }

  function Decimals(t: Json): int
    requires HasIntegerDecimals(t)
  {
    Get(t, "decimals").value.n.value
  }

  /** A `logo` or `uri` value passes unless it is truthy and not an https string. */
  predicate UrlAccepted(v: Option<Json>)
  {
    !(Truthy(v) && (TypeOf(v) != StringType || !StartsWithHttps(v.value.s)))
  }

  /** Lines 34-38: the first of `logo`, `uri` whose value is refused. */
  function UrlFault(t: Json, symbol: string): Option<Failure>
  {
    if !UrlAccepted(Get(t, UrlKeys[0])) then Some(UrlNotHttps(UrlKeys[0], symbol))
    else if !UrlAccepted(Get(t, UrlKeys[1])) then Some(UrlNotHttps(UrlKeys[1], symbol))
    else None
  }

  /** Lines 25-38, in source order, for the record at index `i`. */
  function FieldFault(i: nat, t: Json): (r: Option<Failure>)
    ensures r.Some? ==> r.value.OfRecord()
  {
    if !IsObjectLike(t) then Some(RecordNotObject(i))
    else if !HasText(t, "symbol") then Some(SymbolRequired(i))
    else if !HasText(t, "name") then Some(NameRequired(SymbolOf(t)))
    else if !HasIntegerDecimals(t) then Some(DecimalsNotInteger(SymbolOf(t)))
    else if Decimals(t) < 0 || Decimals(t) > MaxDecimals then Some(DecimalsOutOfRange(SymbolOf(t)))
    else if !HasText(t, "mint_authority") then Some(MintAuthorityRequired(SymbolOf(t)))
    else if !IsNovaAddress(StringValue(t, "mint_authority")) then Some(MintAuthorityMalformed(SymbolOf(t)))
    else UrlFault(t, SymbolOf(t))
  }

  /** What a record must satisfy field by field (lines 25-38), stated as one conjunction. */
  predicate FieldsValid(t: Json)
  {
    && IsObjectLike(t)
    && HasText(t, "symbol")
    && HasText(t, "name")
    && HasIntegerDecimals(t) && 0 <= Decimals(t) <= MaxDecimals
    && HasText(t, "mint_authority") && IsNovaAddress(StringValue(t, "mint_authority"))
    && UrlAccepted(Get(t, "logo"))
    && UrlAccepted(Get(t, "uri"))
  }

  /** Lines 46-47: the first key, in key order, outside the allow-list. */
  function FirstDisallowed(keys: seq<string>): Option<string>
  {
    if keys == [] then None
    else if !IsAllowedKey(keys[0]) then Some(keys[0])
    else FirstDisallowed(keys[1..])
  }

  /** `FirstDisallowed` finds the first key outside the allow-list, and nothing when all are allowed. */
  lemma {:induction false} FirstDisallowedMeaning(keys: seq<string>)
    ensures FirstDisallowed(keys).None? <==> forall j :: 0 <= j < |keys| ==> IsAllowedKey(keys[j])
    ensures FirstDisallowed(keys).Some? ==>
      exists j ::
        && 0 <= j < |keys| && keys[j] == FirstDisallowed(keys).value && !IsAllowedKey(keys[j])
        && forall k :: 0 <= k < j ==> IsAllowedKey(keys[k])
  {
    if keys != [] && IsAllowedKey(keys[0]) {
      var rest := keys[1..];
      FirstDisallowedMeaning(rest);
      assert forall j :: 0 <= j < |rest| ==> rest[j] == keys[j + 1];
      if FirstDisallowed(rest).Some? {
        var j :| 0 <= j < |rest| && rest[j] == FirstDisallowed(rest).value && !IsAllowedKey(rest[j])
          && forall k :: 0 <= k < j ==> IsAllowedKey(rest[k]);
        assert keys[j + 1] == FirstDisallowed(keys).value;
      }
    }
  }

  /** Everything a record must satisfy on its own: its fields and its closed key set. */
  predicate RecordValid(t: Json)
  {
    FieldsValid(t) && forall k :: k in Keys(t) ==> IsAllowedKey(k)
  }

  /**
   * Lines 25-48 for the record at index `i`, given the symbols `seen` in
   * the records before it: field checks, then the duplicate check, then the
   * allow-list.
   */
  function RecordFault(t: Json, i: nat, seen: set<string>): (r: Option<Failure>)
    ensures r.Some? ==> r.value.OfRecord()
  {
    match FieldFault(i, t)
    case Some(f) => Some(f)
    case None =>
      if SymbolOf(t) in seen then Some(DuplicateSymbol(SymbolOf(t)))
      else
        match FirstDisallowed(Keys(t))
        case Some(k) => Some(UnknownField(k, SymbolOf(t)))
        case None => None
  }

  /** The field checks find nothing exactly when the record's fields are valid. */
  lemma FieldFaultNone(i: nat, t: Json)
    ensures FieldFault(i, t).None? <==> FieldsValid(t)
  {
  }

  /**
   * What the failure of one record means: none exactly when the record is
   * valid and its symbol new; a duplicate or an unknown field only after
   * every field check passed.
   */
  lemma RecordFaultMeaning(t: Json, i: nat, seen: set<string>)
    ensures var r := RecordFault(t, i, seen);
      && (r.None? <==> RecordValid(t) && SymbolOf(t) !in seen)
      && (r.Some? && FieldsValid(t) ==> r.value.DuplicateSymbol? || r.value.UnknownField?)
      && (r.Some? && r.value.DuplicateSymbol? ==>
            FieldsValid(t) && r.value.symbol == SymbolOf(t) && SymbolOf(t) in seen)
      && (r.Some? && r.value.UnknownField? ==>
            && FieldsValid(t) && SymbolOf(t) !in seen
            && r.value.key in Keys(t) && !IsAllowedKey(r.value.key))
  {
    FieldFaultNone(i, t);
    FirstDisallowedMeaning(Keys(t));
  }

  /** The symbols of the records in `rs`, as the `seen` set holds them. */
  function SymbolSet(rs: seq<Json>): set<string>
  {
    set j | 0 <= j < |rs| :: SymbolOf(rs[j])
  }

  /** A symbol in the `seen` set belongs to one of the records. */
  lemma SymbolSetWitness(rs: seq<Json>, s: string) returns (a: nat)
    requires s in SymbolSet(rs)
    ensures a < |rs| && SymbolOf(rs[a]) == s
  {
    a :| 0 <= a < |rs| && SymbolOf(rs[a]) == s;
  }

  /** The record loop (lines 20-49): the first failing record's failure, if any. */
  function RecordsFault(rs: seq<Json>): (r: Option<Failure>)
    ensures r.Some? ==> r.value.OfRecord()
  {
    if rs == [] then None
    else
      var n := |rs| - 1;
      match RecordsFault(rs[..n])
      case Some(f) => Some(f)
      case None => RecordFault(rs[n], n, SymbolSet(rs[..n]))
  }

  /** The records' symbols, index by index. */
  function SymbolsOf(rs: seq<Json>): seq<string>
  {
    seq(|rs|, j requires 0 <= j < |rs| => SymbolOf(rs[j]))
  }

  /** The least index at which two equally long sequences differ. */
  function FirstMismatch(a: seq<string>, b: seq<string>): (r: Option<nat>)
    requires |a| == |b|
    ensures r.None? <==> a == b
    ensures r.Some? ==> r.value < |a| && a[r.value] != b[r.value] && a[..r.value] == b[..r.value]
  {
    if a == [] then None
    else if a[0] != b[0] then Some(0)
    else
      var r := FirstMismatch(a[1..], b[1..]);
      assert a == [a[0]] + a[1..] && b == [b[0]] + b[1..];
      match r
      case None => None
      case Some(k) => Some(k + 1)
  }

  /** Lines 52-57: compare each symbol with the one at the same index of the sorted copy. */
  function OrderFault(rs: seq<Json>): Option<Failure>
  {
    match FirstMismatch(SymbolsOf(rs), SymbolsOf(SortBy(rs, SymbolOf)))
    case Some(i) => Some(OutOfOrder(i, SymbolOf(rs[i])))
    case None => None
  }

  /** `doc.tokens` when the document passes lines 13-14. */
  function Tokens(doc: Json): Option<seq<Json>>
  {
    match Get(doc, "tokens")
    case Some(Arr(items)) => Some(items)
    case _ => None
  }

  /** What the validator reports for `doc`. */
  function Verdict(doc: Json): (r: Outcome)
    ensures r.Accepted? ==> Tokens(doc).Some? && r.count == |Tokens(doc).value|
  {
    if !IsObjectLike(doc) then Rejected(NotAnObject)
    else
      match Tokens(doc)
      case None => Rejected(NoTokensArray)
      case Some(rs) =>
        match RecordsFault(rs)
        case Some(f) => Rejected(f)
        case None =>
          match OrderFault(rs)
          case Some(f) => Rejected(f)
          case None => Accepted(|rs|)
  }

  /** Every record in `rs` is valid on its own. */
  predicate AllValid(rs: seq<Json>)
  {
    forall i :: 0 <= i < |rs| ==> RecordValid(rs[i])
  }

  /** The symbols in `rs` are pairwise distinct. */
  predicate DistinctSymbols(rs: seq<Json>)
  {
    forall i, j :: 0 <= i < j < |rs| ==> SymbolOf(rs[i]) != SymbolOf(rs[j])
  }

  lemma AllValidSnoc(rs: seq<Json>)
    requires rs != []
    ensures AllValid(rs) <==> AllValid(rs[..|rs| - 1]) && RecordValid(rs[|rs| - 1])
  {
  }

  lemma DistinctSnoc(rs: seq<Json>)
    requires rs != []
    ensures DistinctSymbols(rs) <==>
      DistinctSymbols(rs[..|rs| - 1]) && SymbolOf(rs[|rs| - 1]) !in SymbolSet(rs[..|rs| - 1])
  {
  }

  /** The declarative description of an accepted registry. */
  predicate RegistryValid(doc: Json)
  {
    && Tokens(doc).Some?
    && AllValid(Tokens(doc).value)
    && DistinctSymbols(Tokens(doc).value)
    && SortedBy(Tokens(doc).value, SymbolOf)
  }

  /** A failure of the record loop is the verdict. */
  lemma VerdictOfRecordsFault(doc: Json)
    requires Tokens(doc).Some? && RecordsFault(Tokens(doc).value).Some?
    ensures Verdict(doc) == Rejected(RecordsFault(Tokens(doc).value).value)
  {
    assert IsObjectLike(doc);
  }

  /** When the record loop passes, the order check decides. */
  lemma VerdictAfterRecords(doc: Json)
    requires Tokens(doc).Some? && RecordsFault(Tokens(doc).value).None?
    ensures OrderFault(Tokens(doc).value).Some? ==>
      Verdict(doc) == Rejected(OrderFault(Tokens(doc).value).value)
    ensures OrderFault(Tokens(doc).value).None? ==> Verdict(doc) == Accepted(|Tokens(doc).value|)
  {
    assert IsObjectLike(doc);
  }

  /** An order failure is reported only after the record loop passed. */
  lemma VerdictOutOfOrder(doc: Json)
    requires Verdict(doc).Rejected? && Verdict(doc).failure.OutOfOrder?
    ensures Tokens(doc).Some? && RecordsFault(Tokens(doc).value).None?
    ensures OrderFault(Tokens(doc).value) == Some(Verdict(doc).failure)
  {
  }

  /** One more record examined after a clean prefix. */
  lemma RecordsFaultStep(rs: seq<Json>, i: nat)
    requires i < |rs| && RecordsFault(rs[..i]) == None
    ensures RecordsFault(rs[..i + 1]) == RecordFault(rs[i], i, SymbolSet(rs[..i]))
  {
    assert rs[..i + 1][..i] == rs[..i];
  }

  /** A failure found in a prefix of the records is the failure of the whole loop. */
  lemma {:induction false} RecordsFaultExtends(rs: seq<Json>, n: nat)
    requires n <= |rs|
    requires RecordsFault(rs[..n]).Some?
    ensures RecordsFault(rs) == RecordsFault(rs[..n])
    decreases |rs| - n
  {
    if n < |rs| {
      var m := |rs| - 1;
      assert rs[..m][..n] == rs[..n];
      RecordsFaultExtends(rs[..m], n);
      assert rs[..m] == rs[..m][..|rs[..m]|];
    } else {
      assert rs[..n] == rs;
    }
  }

  /** Adding the record at index `i` to the `seen` set. */
  lemma SymbolSetSnoc(rs: seq<Json>, i: nat)
    requires i < |rs|
    ensures SymbolSet(rs[..i + 1]) == SymbolSet(rs[..i]) + {SymbolOf(rs[i])}
  {
  }

  /** The first index where the two sequences differ is the one `FirstMismatch` finds. */
  lemma FirstMismatchAt(a: seq<string>, b: seq<string>, i: nat)
    requires |a| == |b| && i < |a|
    requires a[i] != b[i] && forall k :: 0 <= k < i ==> a[k] == b[k]
    ensures FirstMismatch(a, b) == Some(i)
  {
    assert a != b;
    var m := FirstMismatch(a, b).value;
    assert m <= i;
    assert a[..m][..] == b[..m];
  }
}
