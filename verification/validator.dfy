/**
 * The validation script of `scripts/validate.mjs` as a method: the document
 * shape checks, the index loop over the records with its growing `seen` set
 * and its inner loops over the URL keys and over `Object.keys`, and the
 * index loop against the sorted copy. Each method is proved against the
 * corresponding function of `Rules`.
 */
module Validator {
  import opened Json
  import opened Text
  import opened Sorting
  import opened Rules

  /** Lines 34-38: the loop over `["logo", "uri"]`. */
  method CheckUrls(t: Json, symbol: string) returns (fault: Option<Failure>)
    ensures fault == UrlFault(t, symbol)
  {
    for j := 0 to |UrlKeys|
      invariant forall k :: 0 <= k < j ==> UrlAccepted(Get(t, UrlKeys[k]))
    {
      var key := UrlKeys[j];
      var v := Get(t, key);
      if Truthy(v) && (TypeOf(v) != StringType || !StartsWithHttps(v.value.s)) {
        return Some(UrlNotHttps(key, symbol));
      }
    }
    return None;
  }

  /** Lines 25-38 for the record `t` at index `i`. */
  method CheckFields(i: nat, t: Json) returns (fault: Option<Failure>)
    ensures fault == FieldFault(i, t)
  {
    if !Truthy(Some(t)) || TypeOf(Some(t)) != ObjectType {
      return Some(RecordNotObject(i));
    }
    var symbol := Get(t, "symbol");
    if !Truthy(symbol) || TypeOf(symbol) != StringType {
      return Some(SymbolRequired(i));
    }
    var sym := symbol.value.s;
    var name := Get(t, "name");
    if !Truthy(name) || TypeOf(name) != StringType {
      return Some(NameRequired(sym));
    }
    var decimals := Get(t, "decimals");
    if TypeOf(decimals) != NumberType || !decimals.value.n.Integral? {
      return Some(DecimalsNotInteger(sym));
    }
    var d := decimals.value.n.value;
    if d < 0 || d > MaxDecimals {
      return Some(DecimalsOutOfRange(sym));
    }
    var mint := Get(t, "mint_authority");
    if !Truthy(mint) || TypeOf(mint) != StringType {
      return Some(MintAuthorityRequired(sym));
    }
    if !IsNovaAddress(mint.value.s) {
      return Some(MintAuthorityMalformed(sym));
    }
    fault := CheckUrls(t, sym);
  }

  /** Lines 45-48: the first key of `t`, in key order, outside the allow-list. */
  method FindUnknownField(t: Json) returns (key: Option<string>)
    ensures key == FirstDisallowed(Keys(t))
  {
    var keys := Keys(t);
    FirstDisallowedMeaning(keys);
    for j := 0 to |keys|
      invariant forall k :: 0 <= k < j ==> IsAllowedKey(keys[k])
    {
      if keys[j] !in AllowedKeys {
        return Some(keys[j]);
      }
    }
    return None;
  }

  /**
   * Lines 25-48 for the record `t` at index `i`, given the symbols `seen`
   * before it; on success `seen'` is `seen` with the record's symbol added
   * (line 42).
   */
  method CheckRecord(i: nat, t: Json, seen: set<string>) returns (fault: Option<Failure>, seen': set<string>)
    ensures fault == RecordFault(t, i, seen)
    ensures fault.None? ==> seen' == seen + {SymbolOf(t)}
  {
    seen' := seen;
    fault := CheckFields(i, t);
    if fault.Some? {
      return;
    }
    var sym := SymbolOf(t);
    if sym in seen {
      return Some(DuplicateSymbol(sym)), seen';
    }
    seen' := seen + {sym};
    var key := FindUnknownField(t);
    if key.Some? {
      fault := Some(UnknownField(key.value, sym));
    }
  }

  /**
   * Lines 20-49: the index loop over the records, with the `seen` set of
   * the symbols read so far.
   */
  method CheckRecords(records: seq<Json>) returns (fault: Option<Failure>)
    ensures fault == RecordsFault(records)
  {
    var seen: set<string> := {};
    var i := 0;
    while i < |records|
      invariant 0 <= i <= |records|
      invariant RecordsFault(records[..i]) == None
      invariant seen == SymbolSet(records[..i])
    {
      RecordsFaultStep(records, i);
      fault, seen := CheckRecord(i, records[i], seen);
      if fault.Some? {
        RecordsFaultExtends(records, i + 1);
        return;
      }
      SymbolSetSnoc(records, i);
      i := i + 1;
    }
    assert records[..i] == records;
    return None;
  }

  /** Lines 52-57: the index loop comparing each symbol with the sorted copy's. */
  method CheckOrder(records: seq<Json>) returns (fault: Option<Failure>)
    ensures fault == OrderFault(records)
  {
    var sorted := SortBy(records, SymbolOf);
    var i := 0;
    while i < |records|
      invariant 0 <= i <= |records|
      invariant forall k :: 0 <= k < i ==> SymbolOf(records[k]) == SymbolOf(sorted[k])
    {
      if SymbolOf(records[i]) != SymbolOf(sorted[i]) {
        FirstMismatchAt(SymbolsOf(records), SymbolsOf(sorted), i);
        return Some(OutOfOrder(i, SymbolOf(records[i])));
      }
      i := i + 1;
    }
    assert SymbolsOf(records) == SymbolsOf(sorted);
    return None;
  }

  /**
   * Lines 13-59. `doc` is a value, so nothing here can change it; the
   * order check sorts a copy.
   */
  method Validate(doc: Json) returns (outcome: Outcome)
    ensures outcome == Verdict(doc)
  {
    if !Truthy(Some(doc)) || TypeOf(Some(doc)) != ObjectType {
      return Rejected(NotAnObject);
    }
    var tokens := Get(doc, "tokens");
    if !(tokens.Some? && tokens.value.Arr?) {
      return Rejected(NoTokensArray);
    }
    var records := tokens.value.items;
    var fault := CheckRecords(records);
    if fault.Some? {
      return Rejected(fault.value);
    }
    fault := CheckOrder(records);
    if fault.Some? {
      return Rejected(fault.value);
    }
    return Accepted(|records|);
  }
}
