/**
 * The central bank's currency list as server.js reads it, the single-rate lookup
 * `getRateFromCurrencies`, and the code-to-rate table the `/rates` handler builds.
 *
 * A parsed `<Currency>` element is an `Entry`: its `CurrencyCode` attribute and the
 * first text of its `ForexSelling` and `BanknoteSelling` children (`None` when the
 * child is absent).  Rates stay symbolic: `Parsed(t)` stands for `parseFloat(t)`.
 */
module Rates {
  import opened Wrappers

  datatype Entry = Entry(code: string, forexSelling: Option<string>, banknoteSelling: Option<string>)

  /** A rate against the lira: the literal 1, or the number `parseFloat` reads from a text. */
  datatype Rate = One | Parsed(text: string)

  /** The local currency, whose rate is 1 by definition. */
  const LocalCode: string := "TRY"

  /** Assigning a number to this key of a JavaScript object changes its prototype slot, not its keys, so it is ignored. */
  const ProtoKey: string := "__proto__"

  /** JavaScript truthiness of an optional string: present and not empty. */
  predicate IsRateText(o: Option<string>) { o.Some? && o.value != "" }

  /** `cur.ForexSelling?.[0] || cur.BanknoteSelling?.[0]`, with a falsy result as `None`. */
  function RateText(e: Entry): (r: Option<string>)
    ensures IsRateText(e.forexSelling) ==> r == e.forexSelling
    ensures !IsRateText(e.forexSelling) && IsRateText(e.banknoteSelling) ==> r == e.banknoteSelling
    ensures r.None? <==> !IsRateText(e.forexSelling) && !IsRateText(e.banknoteSelling)
    ensures r.Some? ==> r.value != ""
  {
    if IsRateText(e.forexSelling) then e.forexSelling
    else if IsRateText(e.banknoteSelling) then e.banknoteSelling
    else None
  }

  /** `s.replace(",", ".")`: with a string pattern only the first comma becomes a dot. */
  function ReplaceFirstComma(s: string): (r: string)
    ensures |r| == |s|
    ensures ',' !in s ==> r == s
  {
    if s == [] then []
    else if s[0] == ',' then ['.'] + s[1..]
    else [s[0]] + ReplaceFirstComma(s[1..])
  }

  /** The rate a currency's text stands for. */
  function ParseRate(text: string): Rate { Parsed(ReplaceFirstComma(text)) }

  /** Index of the first entry carrying `code`, as `Array.prototype.find` would pick it. */
  function FirstWithCode(entries: seq<Entry>, code: string): (r: Option<nat>)
    ensures r.Some? ==> r.value < |entries| && entries[r.value].code == code
    ensures r.Some? ==> forall j :: 0 <= j < r.value ==> entries[j].code != code
    ensures r.None? <==> forall j :: 0 <= j < |entries| ==> entries[j].code != code
  {
    if entries == [] then None
    else if entries[0].code == code then Some(0)
    else match FirstWithCode(entries[1..], code)
      case None => None
      case Some(i) => Some(i + 1)
  }

  /** `getRateFromCurrencies(currencies, code)`; `None` stands for its `null`. */
  function RateOf(entries: seq<Entry>, code: string): (r: Option<Rate>)
    ensures code == LocalCode ==> r == Some(One)
    ensures code != LocalCode && (forall j :: 0 <= j < |entries| ==> entries[j].code != code) ==> r == None
    ensures r.Some? && code != LocalCode ==> exists j :: 0 <= j < |entries| && entries[j].code == code && RateText(entries[j]).Some?
  {
    if code == LocalCode then Some(One)
    else match FirstWithCode(entries, code)
      case None => None
      case Some(i) =>
        match RateText(entries[i])
        case None => None
        case Some(t) => Some(ParseRate(t))
  }

  /** The `/rates` table after the loop has seen `entries`: seeded with `TRY: 1`, each later rated entry assigned over earlier ones. */
  function TableOf(entries: seq<Entry>): map<string, Rate>
  {
    if entries == [] then map[LocalCode := One]
    else
      var table := TableOf(entries[..|entries| - 1]);
      var e := entries[|entries| - 1];
      match RateText(e)
      case None => table
      case Some(t) => if e.code == ProtoKey then table else table[e.code := ParseRate(t)]
  }

  /** The `/rates` loop: walk the list in order, skip entries without a rate text, assign the rest. */
  method BuildTable(entries: seq<Entry>) returns (rates: map<string, Rate>)
    ensures rates == TableOf(entries)
  {
    rates := map[LocalCode := One];
    for n := 0 to |entries|
      invariant rates == TableOf(entries[..n])
    {
      assert entries[..n + 1][..n] == entries[..n];
      var cur := entries[n];
      var rateText := RateText(cur);
      if rateText.None? {
        continue;
      }
      if cur.code != ProtoKey {
        rates := rates[cur.code := ParseRate(rateText.value)];
      }
    }
    assert entries[..|entries|] == entries;
  }

  /** The outcome of `GET /rates`: the table, or the 500 error when today's list cannot be fetched or parsed. */
  datatype RatesResponse = RatesJson(rates: map<string, Rate>) | RatesUnavailable

  /** The `/rates` handler, with the fetch of today's list given as its outcome. */
  method HandleRates(fetched: Option<seq<Entry>>) returns (response: RatesResponse)
    ensures fetched.None? <==> response == RatesUnavailable
    ensures fetched.Some? ==> response.RatesJson? && LocalCode in response.rates
    ensures fetched.Some? ==> response.rates == TableOf(fetched.value)
  {
    if fetched.None? {
      return RatesUnavailable;
    }
    var rates := BuildTable(fetched.value);
    TableHasLocal(fetched.value);
    return RatesJson(rates);
  }

  // ---------------------------------------------------------------------------
  // Properties of the comma replacement

  /** When the first comma is at `i`, exactly that character turns into a dot and every other is kept. */
  lemma {:induction false} ReplaceFirstCommaAt(s: string, i: nat)
    requires i < |s| && s[i] == ',' && ',' !in s[..i]
    ensures ReplaceFirstComma(s) == s[i := '.']
  {
    if i > 0 {
      assert s[0] in s[..i];
      assert s[1..][..i - 1] == s[1..i];
      assert forall c :: c in s[1..i] ==> c in s[..i];
      ReplaceFirstCommaAt(s[1..], i - 1);
    }
  }

  // ---------------------------------------------------------------------------
  // Properties of the lookup

  /**
   * For any other code the first entry carrying it decides: its ForexSelling text
   * when present and non-empty, else its BanknoteSelling text, else no rate.
   */
  lemma RateOfFirstMatch(entries: seq<Entry>, code: string, i: nat)
    requires code != LocalCode
    requires i < |entries| && entries[i].code == code
    requires forall j :: 0 <= j < i ==> entries[j].code != code
    ensures IsRateText(entries[i].forexSelling) ==> RateOf(entries, code) == Some(ParseRate(entries[i].forexSelling.value))
    ensures !IsRateText(entries[i].forexSelling) && IsRateText(entries[i].banknoteSelling)
      ==> RateOf(entries, code) == Some(ParseRate(entries[i].banknoteSelling.value))
    ensures !IsRateText(entries[i].forexSelling) && !IsRateText(entries[i].banknoteSelling)
      ==> RateOf(entries, code) == None
  {
    FirstIndexUnique(entries, code, i);
  }

  lemma FirstIndexUnique(entries: seq<Entry>, code: string, i: nat)
    requires i < |entries| && entries[i].code == code
    requires forall j :: 0 <= j < i ==> entries[j].code != code
    ensures FirstWithCode(entries, code) == Some(i)
  {
    var r := FirstWithCode(entries, code);
    assert r.Some?;
    assert !(r.value < i) && !(i < r.value);
  }

  /** Entries after the first match never change the answer. */
  lemma RateOfIgnoresLaterEntries(entries: seq<Entry>, more: seq<Entry>, code: string)
    requires exists j :: 0 <= j < |entries| && entries[j].code == code
    ensures RateOf(entries + more, code) == RateOf(entries, code)
  {
    if code != LocalCode {
      var i := FirstWithCode(entries, code).value;
      var all := entries + more;
      assert all[i] == entries[i];
      FirstIndexUnique(all, code, i);
    }
  }

  // ---------------------------------------------------------------------------
  // Properties of the /rates table

  /** The loop only ever adds or overwrites keys, so the seeded "TRY" key is always there. */
  lemma {:induction false} TableHasLocal(entries: seq<Entry>)
    ensures LocalCode in TableOf(entries)
  {
    if entries != [] {
      TableHasLocal(entries[..|entries| - 1]);
    }
  }

  /** A rated entry with a code other than `__proto__`. */
  predicate Assigns(e: Entry, code: string)
  {
    e.code == code && RateText(e).Some? && code != ProtoKey
  }

  /** The keys of the table: "TRY", and every code some rated entry carries (except `__proto__`). */
  lemma {:induction false} TableKeys(entries: seq<Entry>, code: string)
    ensures code in TableOf(entries) <==>
      code == LocalCode || exists j :: 0 <= j < |entries| && Assigns(entries[j], code)
  {
    if entries != [] {
      var init := entries[..|entries| - 1];
      TableKeys(init, code);
      if exists j :: 0 <= j < |entries| && Assigns(entries[j], code) {
        var j :| 0 <= j < |entries| && Assigns(entries[j], code);
        if j < |entries| - 1 {
          assert init[j] == entries[j];
        }
      }
      if exists j :: 0 <= j < |init| && Assigns(init[j], code) {
        var j :| 0 <= j < |init| && Assigns(init[j], code);
        assert entries[j] == init[j];
      }
    }
  }

  /** Where a code is assigned, the LAST rated entry carrying it gives the value. */
  lemma {:induction false} TableValueIsLastAssignment(entries: seq<Entry>, code: string, i: nat)
    requires i < |entries| && Assigns(entries[i], code)
    requires forall j :: i < j < |entries| ==> !Assigns(entries[j], code)
    ensures code in TableOf(entries)
    ensures TableOf(entries)[code] == ParseRate(RateText(entries[i]).value)
  {
    var init := entries[..|entries| - 1];
    if i < |entries| - 1 {
      assert init[i] == entries[i];
      TableValueIsLastAssignment(init, code, i);
    }
  }

  /** Where no entry assigns "TRY", the table keeps the seeded 1 for it. */
  lemma {:induction false} TableLocalIsOne(entries: seq<Entry>)
    requires forall j :: 0 <= j < |entries| ==> !Assigns(entries[j], LocalCode)
    ensures LocalCode in TableOf(entries) && TableOf(entries)[LocalCode] == One
  {
    TableHasLocal(entries);
    if entries != [] {
      var init := entries[..|entries| - 1];
      assert forall j :: 0 <= j < |init| ==> init[j] == entries[j];
      TableLocalIsOne(init);
    }
  }

  /** Every code in the list appears at most once. */
  predicate UniqueCodes(entries: seq<Entry>)
  {
    forall i, j :: 0 <= i < j < |entries| ==> entries[i].code != entries[j].code
  }

  /**
   * With each code listed once, no "TRY" entry and no `__proto__` entry (as in the
   * published list), the table and `getRateFromCurrencies` agree: a code is a key
   * exactly when the lookup finds a rate, and then with the same rate.
   */
  lemma TableAgreesWithLookup(entries: seq<Entry>, code: string)
    requires UniqueCodes(entries)
    requires forall j :: 0 <= j < |entries| ==> entries[j].code != LocalCode && entries[j].code != ProtoKey
    ensures code in TableOf(entries) <==> RateOf(entries, code).Some?
    ensures code in TableOf(entries) ==> RateOf(entries, code) == Some(TableOf(entries)[code])
  {
    TableKeys(entries, code);
    if code == LocalCode {
      TableLocalIsOne(entries);
    } else {
      match FirstWithCode(entries, code)
      case None =>
      case Some(i) =>
        if RateText(entries[i]).Some? {
          TableValueIsLastAssignment(entries, code, i);
        }
    }
  }
}
