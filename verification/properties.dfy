/**
 * What the validator promises, proved about `Rules.Verdict` and therefore,
 * through `Validator.Validate`'s postcondition, about the method.
 */
module Properties {
  import opened Json
  import opened Text
  import opened Sorting
  import opened Rules

  /** Lines 13 and 25: `v && typeof v === "object"` admits objects and arrays, nothing else. */
  lemma ObjectLikeValues(v: Json)
    ensures IsObjectLike(v) <==> v.Obj? || v.Arr?
  {
  }

  /** Lines 13-14: a document of the wrong shape is refused before any record is read. */
  lemma ShapeRejectedFirst(doc: Json)
    ensures !IsObjectLike(doc) ==> Verdict(doc) == Rejected(NotAnObject)
    ensures IsObjectLike(doc) && Tokens(doc).None? ==> Verdict(doc) == Rejected(NoTokensArray)
    ensures doc.Arr? ==> Verdict(doc) == Rejected(NoTokensArray)
  {
  }

  /** Lines 34-38: which `logo` and `uri` values pass; the falsy ones are never looked at. */
  lemma UrlRule(v: Option<Json>)
    ensures UrlAccepted(v) <==>
      || v == None || v == Some(Null) || v == Some(Bool(false))
      || v == Some(Num(Integral(0))) || v == Some(Str(""))
      || (v.Some? && v.value.Str? && StartsWithHttps(v.value.s))
  {
  }

  /** The record loop finds nothing exactly when every record is valid and the symbols are distinct. */
  lemma {:induction false} RecordsFaultNone(rs: seq<Json>)
    ensures RecordsFault(rs) == None <==> AllValid(rs) && DistinctSymbols(rs)
  {
    if rs != [] {
      var n := |rs| - 1;
      RecordsFaultNone(rs[..n]);
      RecordFaultMeaning(rs[n], n, SymbolSet(rs[..n]));
      AllValidSnoc(rs);
      DistinctSnoc(rs);
    }
  }

  /** A failure of the record loop is the failure of some record all of whose predecessors pass. */
  lemma {:induction false} RecordsFaultLocated(rs: seq<Json>, f: Failure)
    requires RecordsFault(rs) == Some(f)
    ensures exists i ::
      && 0 <= i < |rs|
      && RecordsFault(rs[..i]) == None
      && RecordFault(rs[i], i, SymbolSet(rs[..i])) == Some(f)
  {
    var n := |rs| - 1;
    var front := rs[..n];
    if RecordsFault(front) != None {
      assert RecordsFault(front) == Some(f);
      RecordsFaultLocated(front, f);
      var i :| 0 <= i < |front| && RecordsFault(front[..i]) == None &&
        RecordFault(front[i], i, SymbolSet(front[..i])) == Some(f);
      assert front[..i] == rs[..i] && front[i] == rs[i];
    } else {
      assert RecordFault(rs[n], n, SymbolSet(rs[..n])) == Some(f);
    }
  }

  /** The order check passes exactly when the symbols are non-decreasing under the comparator. */
  lemma OrderFaultNone(rs: seq<Json>)
    ensures OrderFault(rs) == None <==> SortedBy(rs, SymbolOf)
  {
    var sorted := SortBy(rs, SymbolOf);
    if SortedBy(rs, SymbolOf) {
      SortByIdentity(rs, SymbolOf);
    }
    if OrderFault(rs) == None {
      assert SymbolsOf(rs) == SymbolsOf(sorted);
      SortBySorted(rs, SymbolOf);
      forall i, j | 0 <= i < j < |rs|
        ensures Compare(SymbolOf(rs[i]), SymbolOf(rs[j])) <= 0
      {
        assert SymbolsOf(rs)[i] == SymbolsOf(sorted)[i] && SymbolsOf(rs)[j] == SymbolsOf(sorted)[j];
      }
    }
  }

  /** Accepted exactly when the registry is valid as a whole. */
  lemma AcceptedIffValid(doc: Json)
    ensures Verdict(doc).Accepted? <==> RegistryValid(doc)
  {
    if Tokens(doc).Some? {
      RecordsFaultNone(Tokens(doc).value);
      OrderFaultNone(Tokens(doc).value);
    }
  }

  /** Lines 25-31, 34-38 and 46-47, spelled out for one valid record. */
  lemma RecordValidFacts(t: Json)
    requires RecordValid(t)
    ensures t.Obj?
    ensures Get(t, "symbol").Some? && Get(t, "symbol").value.Str? && Get(t, "symbol").value.s != ""
    ensures Get(t, "name").Some? && Get(t, "name").value.Str? && Get(t, "name").value.s != ""
    ensures Get(t, "decimals").Some? && Get(t, "decimals").value.Num?
    ensures Get(t, "decimals").value.n.Integral? && 0 <= Get(t, "decimals").value.n.value <= 18
    ensures Get(t, "mint_authority").Some? && Get(t, "mint_authority").value.Str?
    ensures IsNovaAddress(Get(t, "mint_authority").value.s)
    ensures UrlAccepted(Get(t, "logo")) && UrlAccepted(Get(t, "uri"))
    ensures forall k :: k in Keys(t) ==> k in AllowedKeys
  {
  }

  /** Line 59 and the record checks: what acceptance says about each record. */
  lemma AcceptedRecord(doc: Json, i: nat)
    requires Verdict(doc).Accepted? && i < Verdict(doc).count
    ensures Tokens(doc).Some? && Verdict(doc).count == |Tokens(doc).value|
    ensures RecordValid(Tokens(doc).value[i])
  {
    AcceptedIffValid(doc);
  }

  /** On acceptance the symbols are pairwise distinct (line 41) and in order (lines 52-57). */
  lemma AcceptedSymbols(doc: Json, i: nat, j: nat)
    requires Verdict(doc).Accepted? && i < j < Verdict(doc).count
    ensures Tokens(doc).Some? && j < |Tokens(doc).value|
    ensures SymbolOf(Tokens(doc).value[i]) != SymbolOf(Tokens(doc).value[j])
    ensures Compare(SymbolOf(Tokens(doc).value[i]), SymbolOf(Tokens(doc).value[j])) <= 0
  {
    AcceptedIffValid(doc);
  }

  /**
   * Fail-fast order: when every record before index `i` passes and record
   * `i` fails, its first failing check is what is reported, whatever the
   * later records hold.
   */
  lemma FirstFailingRecordReported(doc: Json, i: nat, f: Failure)
    requires Tokens(doc).Some? && i < |Tokens(doc).value|
    requires AllValid(Tokens(doc).value[..i]) && DistinctSymbols(Tokens(doc).value[..i])
    requires RecordFault(Tokens(doc).value[i], i, SymbolSet(Tokens(doc).value[..i])) == Some(f)
    ensures Verdict(doc) == Rejected(f)
  {
    var rs := Tokens(doc).value;
    RecordsFaultNone(rs[..i]);
    RecordsFaultStep(rs, i);
    RecordsFaultExtends(rs, i + 1);
    VerdictOfRecordsFault(doc);
  }

  /**
   * Conversely, every failure other than the shape and order failures is
   * the first failing check of a record all of whose predecessors pass.
   */
  lemma RejectedRecordLocated(doc: Json, f: Failure)
    requires Tokens(doc).Some? && Verdict(doc) == Rejected(f) && f.OfRecord()
    ensures exists i ::
      && 0 <= i < |Tokens(doc).value|
      && AllValid(Tokens(doc).value[..i]) && DistinctSymbols(Tokens(doc).value[..i])
      && RecordFault(Tokens(doc).value[i], i, SymbolSet(Tokens(doc).value[..i])) == Some(f)
  {
    var rs := Tokens(doc).value;
    RecordsFaultLocated(rs, f);
    var i :| 0 <= i < |rs| && RecordsFault(rs[..i]) == None &&
      RecordFault(rs[i], i, SymbolSet(rs[..i])) == Some(f);
    RecordsFaultNone(rs[..i]);
  }

  /**
   * The order check runs only when every record passed; its offender is
   * the first index where the record's symbol differs from the sorted
   * copy's, and then the symbols are indeed out of order.
   */
  lemma OutOfOrderMeaning(doc: Json, i: nat, s: string)
    requires Verdict(doc) == Rejected(OutOfOrder(i, s))
    ensures Tokens(doc).Some?
    ensures AllValid(Tokens(doc).value) && DistinctSymbols(Tokens(doc).value)
    ensures !SortedBy(Tokens(doc).value, SymbolOf)
    ensures i < |Tokens(doc).value| && s == SymbolOf(Tokens(doc).value[i])
    ensures s != SymbolOf(SortBy(Tokens(doc).value, SymbolOf)[i])
    ensures forall j :: 0 <= j < i ==>
      SymbolOf(Tokens(doc).value[j]) == SymbolOf(SortBy(Tokens(doc).value, SymbolOf)[j])
  {
    VerdictOutOfOrder(doc);
    var rs := Tokens(doc).value;
    RecordsFaultNone(rs);
    OrderFaultNone(rs);
    var a, b := SymbolsOf(rs), SymbolsOf(SortBy(rs, SymbolOf));
    assert FirstMismatch(a, b) == Some(i);
    forall j | 0 <= j < i
      ensures SymbolOf(rs[j]) == SymbolOf(SortBy(rs, SymbolOf)[j])
    {
      assert a[..i][j] == b[..i][j];
    }
  }

  /** A record that passes its own checks can only fail as a duplicate. */
  lemma ValidRecordFault(t: Json, i: nat, seen: set<string>)
    requires RecordValid(t) && RecordFault(t, i, seen).Some?
    ensures RecordFault(t, i, seen) == Some(DuplicateSymbol(SymbolOf(t))) && SymbolOf(t) in seen
  {
    RecordFaultMeaning(t, i, seen);
  }

  /** A failure of the record loop over valid records is a duplicate of an earlier record's symbol. */
  lemma ValidRecordsFault(rs: seq<Json>)
    requires AllValid(rs) && RecordsFault(rs).Some?
    ensures RecordsFault(rs).value.DuplicateSymbol?
    ensures exists a, b ::
      && 0 <= a < b < |rs|
      && SymbolOf(rs[a]) == RecordsFault(rs).value.symbol
      && SymbolOf(rs[b]) == RecordsFault(rs).value.symbol
  {
    var f := RecordsFault(rs).value;
    RecordsFaultLocated(rs, f);
    var b :| 0 <= b < |rs| && RecordsFault(rs[..b]) == None &&
      RecordFault(rs[b], b, SymbolSet(rs[..b])) == Some(f);
    assert RecordValid(rs[b]);
    ValidRecordFault(rs[b], b, SymbolSet(rs[..b]));
    var a := SymbolSetWitness(rs[..b], f.symbol);
    assert rs[..b][a] == rs[a];
    assert SymbolOf(rs[a]) == f.symbol && SymbolOf(rs[b]) == f.symbol;
  }

  /** Line 41 for the record loop alone: a repeated symbol among valid records is a duplicate. */
  lemma DuplicateFound(rs: seq<Json>, i: nat, j: nat)
    requires i < j < |rs| && AllValid(rs)
    requires SymbolOf(rs[i]) == SymbolOf(rs[j])
    ensures RecordsFault(rs).Some? && RecordsFault(rs).value.DuplicateSymbol?
    ensures exists a, b ::
      && 0 <= a < b < |rs|
      && SymbolOf(rs[a]) == RecordsFault(rs).value.symbol
      && SymbolOf(rs[b]) == RecordsFault(rs).value.symbol
  {
    RecordsFaultNone(rs);
    assert !DistinctSymbols(rs);
    ValidRecordsFault(rs);
  }

  /**
   * Line 41: among records that pass their own checks, a repeated symbol
   * is reported as a duplicate, of a symbol that does occur twice.
   */
  lemma DuplicateRejected(doc: Json, i: nat, j: nat)
    requires Tokens(doc).Some? && i < j < |Tokens(doc).value|
    requires AllValid(Tokens(doc).value)
    requires SymbolOf(Tokens(doc).value[i]) == SymbolOf(Tokens(doc).value[j])
    ensures Verdict(doc).Rejected? && Verdict(doc).failure.DuplicateSymbol?
    ensures exists a, b ::
      && 0 <= a < b < |Tokens(doc).value|
      && SymbolOf(Tokens(doc).value[a]) == Verdict(doc).failure.symbol
      && SymbolOf(Tokens(doc).value[b]) == Verdict(doc).failure.symbol
  {
    DuplicateFound(Tokens(doc).value, i, j);
    VerdictOfRecordsFault(doc);
  }

  /** A record in the shape of the registry's entries. */
  function Entry(symbol: string, decimals: int): Json
  {
    Obj([("symbol", Str(symbol)), ("name", Str("Alpha")),
         ("decimals", Num(Integral(decimals))), ("mint_authority", Str("nova1abcdefghijk"))])
  }

  function Registry(entries: seq<Json>): Json
  {
    Obj([("tokens", Arr(entries))])
  }

  lemma EntryFields(symbol: string, decimals: int)
    ensures Get(Entry(symbol, decimals), "symbol") == Some(Str(symbol))
    ensures Get(Entry(symbol, decimals), "name") == Some(Str("Alpha"))
    ensures Get(Entry(symbol, decimals), "decimals") == Some(Num(Integral(decimals)))
    ensures Get(Entry(symbol, decimals), "mint_authority") == Some(Str("nova1abcdefghijk"))
    ensures Get(Entry(symbol, decimals), "logo") == None
    ensures Get(Entry(symbol, decimals), "uri") == None
    ensures forall k :: k in Keys(Entry(symbol, decimals)) <==> k in ["symbol", "name", "decimals", "mint_authority"]
  {
    var fs := Entry(symbol, decimals).fields;
    LookupUnique(fs, "symbol", 0);
    LookupUnique(fs, "name", 1);
    LookupUnique(fs, "decimals", 2);
    LookupUnique(fs, "mint_authority", 3);
    LookupMeaning(fs, "logo");
    LookupMeaning(fs, "uri");
    FirstOccurrencesMeaning(BoundKeys(fs));
    assert BoundKeys(fs) == ["symbol", "name", "decimals", "mint_authority"];
  }

  lemma EntryValid(symbol: string, decimals: int)
    requires symbol != "" && 0 <= decimals <= 18
    ensures RecordValid(Entry(symbol, decimals))
    ensures SymbolOf(Entry(symbol, decimals)) == symbol
  {
    EntryFields(symbol, decimals);
    var mint := "nova1abcdefghijk";
    assert mint[..5] == NovaPrefix;
  }

  /** A single well-formed entry is accepted with count 1. */
  lemma SingleEntryAccepted()
    ensures Verdict(Registry([Entry("AAA", 6)])) == Accepted(1)
  {
    var doc := Registry([Entry("AAA", 6)]);
    LookupUnique(doc.fields, "tokens", 0);
    EntryValid("AAA", 6);
    AcceptedIffValid(doc);
  }

  /** `decimals: 19` is out of range. */
  lemma DecimalsNineteenRejected()
    ensures Verdict(Registry([Entry("AAA", 19)])) == Rejected(DecimalsOutOfRange("AAA"))
  {
    var doc := Registry([Entry("AAA", 19)]);
    LookupUnique(doc.fields, "tokens", 0);
    var rs := [Entry("AAA", 19)];
    EntryFields("AAA", 19);
    assert FieldFault(0, rs[0]) == Some(DecimalsOutOfRange("AAA"));
    assert rs[..0] == [];
    FirstFailingRecordReported(doc, 0, DecimalsOutOfRange("AAA"));
  }

  /** Two elements out of order are swapped by the sort. */
  lemma SortSwapsPair<T>(x: T, y: T, key: T -> string)
    requires Compare(key(x), key(y)) > 0
    ensures SortBy([x, y], key) == [y, x]
  {
    var s := [x, y];
    assert s[..1] == [x];
    assert SortBy([x], key) == [x];
    assert Insert([x], y, key) == Insert([], y, key) + [x];
  }

  /** Two valid entries with different symbols pass the record loop. */
  lemma PairPasses(x: string, y: string)
    requires x != "" && y != "" && x != y
    ensures RecordsFault([Entry(x, 6), Entry(y, 6)]) == None
  {
    var rs := [Entry(x, 6), Entry(y, 6)];
    EntryValid(x, 6);
    EntryValid(y, 6);
    RecordsFaultNone(rs);
  }

  /** The order check on two entries: in order exactly when the comparator does not put the first after the second. */
  lemma PairOrderFault(x: string, y: string)
    ensures Compare(x, y) <= 0 ==> OrderFault([Entry(x, 6), Entry(y, 6)]) == None
    ensures Compare(x, y) > 0 ==> OrderFault([Entry(x, 6), Entry(y, 6)]) == Some(OutOfOrder(0, x))
  {
    var rs := [Entry(x, 6), Entry(y, 6)];
    EntryFields(x, 6);
    EntryFields(y, 6);
    assert SymbolOf(rs[0]) == x && SymbolOf(rs[1]) == y;
    if Compare(x, y) <= 0 {
      assert SortedBy(rs, SymbolOf);
      OrderFaultNone(rs);
    } else {
      CompareFlip(x, y);
      SortSwapsPair(rs[0], rs[1], SymbolOf);
      FirstMismatchAt(SymbolsOf(rs), SymbolsOf(SortBy(rs, SymbolOf)), 0);
    }
  }

  /** "BBB" before "AAA" is reported at index 0. */
  lemma UnsortedRejected()
    ensures Verdict(Registry([Entry("BBB", 6), Entry("AAA", 6)])) == Rejected(OutOfOrder(0, "BBB"))
  {
    var doc := Registry([Entry("BBB", 6), Entry("AAA", 6)]);
    LookupUnique(doc.fields, "tokens", 0);
    PairPasses("BBB", "AAA");
    CompareByFirst("BBB", "AAA");
    PairOrderFault("BBB", "AAA");
    VerdictAfterRecords(doc);
  }

  /** The order is case-insensitive: "aaa" before "BBB" is in order, though 'B' < 'a' by code. */
  lemma CaseInsensitiveOrderAccepted()
    ensures Verdict(Registry([Entry("aaa", 6), Entry("BBB", 6)])) == Accepted(2)
  {
    var doc := Registry([Entry("aaa", 6), Entry("BBB", 6)]);
    LookupUnique(doc.fields, "tokens", 0);
    PairPasses("aaa", "BBB");
    CompareByFirst("aaa", "BBB");
    PairOrderFault("aaa", "BBB");
    VerdictAfterRecords(doc);
  }

  /** Three valid entries with pairwise different symbols pass the record loop. */
  lemma TriplePasses(x: string, y: string, z: string)
    requires x != "" && y != "" && z != "" && x != y && y != z && x != z
    ensures RecordsFault([Entry(x, 6), Entry(y, 6), Entry(z, 6)]) == None
  {
    var rs := [Entry(x, 6), Entry(y, 6), Entry(z, 6)];
    EntryValid(x, 6);
    EntryValid(y, 6);
    EntryValid(z, 6);
    RecordsFaultNone(rs);
  }

  /** A later element that ties with the first is placed after it, not before. */
  lemma SortTieTriple<T>(x: T, y: T, z: T, key: T -> string)
    requires Compare(key(x), key(y)) <= 0 && Compare(key(y), key(z)) > 0
    requires Compare(key(x), key(z)) <= 0
    ensures SortBy([x, y, z], key) == [x, z, y]
  {
    var s := [x, y, z];
    assert s[..2] == [x, y] && [x, y][..1] == [x];
    assert SortBy([x], key) == [x];
    assert SortBy([x, y], key) == [x, y];
    assert Insert([x, y], z, key) == Insert([x], z, key) + [y];
  }

  /** The entries "A", "c", "a" sort to "A", "a", "c": the tie keeps its input order. */
  lemma TiedSort()
    ensures var rs := [Entry("A", 6), Entry("c", 6), Entry("a", 6)];
      SortBy(rs, SymbolOf) == [rs[0], rs[2], rs[1]]
  {
    var rs := [Entry("A", 6), Entry("c", 6), Entry("a", 6)];
    EntryFields("A", 6);
    EntryFields("c", 6);
    EntryFields("a", 6);
    CompareByFirst("A", "c");
    CompareByFirst("c", "a");
    assert Fold("A") == Fold("a");
    CompareZeroIffSameFold("A", "a");
    SortTieTriple(rs[0], rs[1], rs[2], SymbolOf);
  }

  lemma TiedOrderFault()
    ensures OrderFault([Entry("A", 6), Entry("c", 6), Entry("a", 6)]) == Some(OutOfOrder(1, "c"))
  {
    var rs := [Entry("A", 6), Entry("c", 6), Entry("a", 6)];
    TiedSort();
    EntryFields("A", 6);
    EntryFields("c", 6);
    EntryFields("a", 6);
    var a, b := SymbolsOf(rs), SymbolsOf(SortBy(rs, SymbolOf));
    assert a[0] == b[0] && a[1] != b[1];
    FirstMismatchAt(a, b, 1);
  }

  /**
   * Stability decides the reported index: "A", "c", "a" sorts to "A", "a",
   * "c", so the offender is index 1, "c", and not index 0.
   */
  lemma TiedOrderReported()
    ensures Verdict(Registry([Entry("A", 6), Entry("c", 6), Entry("a", 6)])) == Rejected(OutOfOrder(1, "c"))
  {
    var doc := Registry([Entry("A", 6), Entry("c", 6), Entry("a", 6)]);
    LookupUnique(doc.fields, "tokens", 0);
    TriplePasses("A", "c", "a");
    TiedOrderFault();
    VerdictAfterRecords(doc);
  }
}
