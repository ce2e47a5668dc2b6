/**
 Worked examples that run a concrete form or a concrete list of assets
 through both pages, and the one place the two pages' number readers are
 compared.

 The literals of an example are parameters pinned by `requires` rather
 than written into its `ensures`: the verifier unfolds a recursive function
 applied to a literal without limit, and the text readers are recursive.
 */
module Scenarios {
  import opened Text
  import opened JsNumbers
  import opened JsValues
  import opened AddAsset
  import opened Dashboard
  import Seqs

  /** On text without commas that does not end in whitespace, the dashboard's
      `num` and the add page's `toNumber` read the same number. */
  lemma ReadersAgree(s: string)
    requires forall i :: 0 <= i < |s| ==> s[i] != ','
    requires |s| > 0 ==> !IsWhitespace(s[|s| - 1])
    ensures NumValue(Str(s)) == ToNumber(Str(s))
  {
    NumOfText(s);
    RemoveCommasNoop(s);
    ToNumberOfStr(s);
    TrimOfEndTrimmed(s);
    TrimStartOfTrimmed(TrimStart(s));
  }

  /** With a thousands separator they differ: the dashboard drops the
      comma, the add page stops at it. */
  lemma ReadersOnSeparatedDigits(i: Digits, j: Digits)
    requires |i| > 0 && |j| > 0
    ensures NumValue(Str(i + "," + j)) == DigitsValue(i + j) as real
    ensures ToNumber(Str(i + "," + j)) == DigitsValue(i) as real
  {
    NumOfGroupedDigits(i, j);
    CommaEndsTheNumber(i, j);
  }

  /** The dashboard reads "1,200" as 1200, the add page as 1. The text is
      passed in, as the module comment explains. */
  lemma ReadersDisagreeOnCommas(i: Digits, j: Digits)
    requires i == "1" && j == "200"
    ensures NumValue(Str(i + "," + j)) == 1200.0
    ensures ToNumber(Str(i + "," + j)) == 1.0
  {
    ReadersOnSeparatedDigits(i, j);
    OneAndTwelveHundred(i, j);
  }

  lemma OneAndTwelveHundred(i: Digits, j: Digits)
    requires i == "1" && j == "200"
    ensures DigitsValue(i) == 1 && DigitsValue(i + j) == 1200
  {
    assert NatToDigits(1) == i;
    assert NatToDigits(1200) == i + j;
  }

  /** A natural number written as text reads as itself on the dashboard. */
  lemma NumOfNatText(n: nat)
    ensures NumValue(Str(NatToDigits(n))) == n as real
  {
    NumOfText(NatToDigits(n));
    RemoveCommasNoop(NatToDigits(n));
    NatRoundTrip(n);
  }

  // ---------------------------------------------------------------------
  // Building a stocks record

  /** The stocks form with a ticker and a share count but a blank purchase
      price: the price is left out, the count stored as a number, and no
      other optional key appears. */
  lemma BlankPriceLeftOut(form: Form)
    requires form.Keys == {"name", "purchaseValue", "purchaseDate", "currentValue", "ticker", "shares", "purchasePrice"}
    requires IsSupplied(form, "ticker") && IsSupplied(form, "shares") && Trim(form["purchasePrice"]) == ""
    ensures "purchasePrice" !in BuildRecord("stocks", form)
    ensures BuildRecord("stocks", form).Keys == BaseKeys + {"ticker", "shares"}
    ensures BuildRecord("stocks", form)["shares"] == Num(ToNumber(Str(form["shares"])))
    ensures BuildRecord("stocks", form)["ticker"] == Str(Trim(form["ticker"]))
  {
    OnlyTickerAndShares(form, BuildRecord("stocks", form));
  }

  /** "10" in the share-count field is stored as the number 10. The text is
      passed in, as the module comment explains. */
  lemma TenReadsAsTen(t: string)
    requires t == "10"
    ensures ToNumber(Str(t)) == 10.0
  {
    assert NatToDigits(10) == t;
    ToNumberOfNatText(10);
  }

  /** " 10 " with surrounding spaces is trimmed and read as 10 too. The
      text is passed in, as the module comment explains. */
  lemma PaddedTenReadsAsTen(t: string, ten: Digits)
    requires ten == "10" && t == " " + ten + " "
    ensures ToNumber(Str(t)) == 10.0
  {
    assert NatToDigits(10) == ten;
    assert t == " " + "" + ten + FractionText("") + " ";
    ToNumberReadsLeadingDecimal(" ", "", ten, "", " ");
    IntegerText(ten);
  }

  /** Of the optional keys, only the ticker and the share count are supplied. */
  lemma OnlyTickerAndShares(form: Form, r: Record)
    requires form.Keys == {"name", "purchaseValue", "purchaseDate", "currentValue", "ticker", "shares", "purchasePrice"}
    requires IsSupplied(form, "ticker") && IsSupplied(form, "shares") && !IsSupplied(form, "purchasePrice")
    requires BaseKeys <= r.Keys && HasOptionalFields(form, r)
    ensures r.Keys == BaseKeys + {"ticker", "shares"}
  {
    FormExtraKeys(form);
    OptionalKeysSupplied(form, r);
    TickerAndSharesAreOptional();
    KeysFromSupplied(form, r);
  }

  lemma KeysFromSupplied(form: Form, r: Record)
    requires form.Keys - BaseKeys == {"ticker", "shares", "purchasePrice"}
    requires !IsSupplied(form, "purchasePrice")
    requires forall k :: k in r && k !in BaseKeys ==> IsSupplied(form, k)
    requires BaseKeys <= r.Keys && "ticker" in r && "shares" in r
    ensures r.Keys == BaseKeys + {"ticker", "shares"}
  {
    forall k | k in r && k !in BaseKeys ensures k == "ticker" || k == "shares" {
      assert k in form.Keys - BaseKeys;
    }
  }

  lemma FormExtraKeys(form: Form)
    requires form.Keys == {"name", "purchaseValue", "purchaseDate", "currentValue", "ticker", "shares", "purchasePrice"}
    ensures form.Keys - BaseKeys == {"ticker", "shares", "purchasePrice"}
  {
  }

  lemma OptionalKeysSupplied(form: Form, r: Record)
    requires HasOptionalFields(form, r)
    ensures forall k :: k in r && k !in BaseKeys ==> IsSupplied(form, k)
  {
  }

  lemma TickerAndSharesAreOptional()
    ensures "ticker" in TextKeys && "shares" in NumericKeys
  {
  }

  // ---------------------------------------------------------------------
  // Valuing assets

  /** `currentValue` wins over `purchaseValue`; `purchaseValue` alone is
      used; neither gives 0. The records are passed in, as the module
      comment explains. */
  lemma AliasPrecedenceExamples(both: Record, purchaseOnly: Record, neither: Record)
    requires both == map["currentValue" := Num(500.0), "purchaseValue" := Num(300.0)]
    requires purchaseOnly == map["purchaseValue" := Num(300.0)]
    requires neither == map["name" := Str("Plot")]
    ensures AssetValue(both) == 500.0
    ensures AssetValue(purchaseOnly) == 300.0
    ensures AssetValue(neither) == 0.0
  {
    assert Get(both, ValueAliases[0]) == Num(500.0);
    AliasesBeforePurchaseValueAbsent(purchaseOnly);
    forall i | 0 <= i < |ValueAliases| ensures IsNullish(Get(neither, ValueAliases[i])) {
      assert ValueAliases[i] != "name";
    }
  }

  lemma AliasesBeforePurchaseValueAbsent(a: Record)
    requires a == map["purchaseValue" := Num(300.0)]
    ensures AssetValue(a) == 300.0
  {
    assert ValueAliases[3] == "purchaseValue";
    forall j | 0 <= j < 3 ensures IsNullish(Get(a, ValueAliases[j])) {
      assert ValueAliases[j] != "purchaseValue";
    }
  }

  // ---------------------------------------------------------------------
  // The dashboard end to end

  /** Two gold assets worth 1000 and 500 and a stocks asset bought for 2000:
      the chart shows gold 1500 and stocks 2000, the total is 3500. */
  lemma GoldAndStocksExample(s: seq<Record>, gold1: Record, gold2: Record, stocks: Record)
    requires Get(gold1, "category") == Str("gold") && Get(gold1, "currentValue") == Str("1000")
    requires Get(gold2, "category") == Str("gold") && Get(gold2, "currentValue") == Str("500")
    requires Get(stocks, "category") == Str("stocks") && Get(stocks, "purchaseValue") == Str("2000")
    requires "currentValue" !in stocks && "current_value" !in stocks && "value" !in stocks
    requires s == [gold1, gold2, stocks]
    ensures Group(s) == [Bucket(Str("gold"), [gold1, gold2]), Bucket(Str("stocks"), [stocks])]
    ensures ChartData(Group(s)) == [ChartEntry(Str("gold"), 1500.0), ChartEntry(Str("stocks"), 2000.0)]
    ensures TotalPortfolio(Group(s)) == 3500.0
  {
    GoldAndStocksGroups(s, gold1, gold2, stocks, Str("gold"), Str("stocks"));
    ExampleDigits();
    CurrentValueDecides(gold1, "1000", 1000);
    CurrentValueDecides(gold2, "500", 500);
    NumOfNatText(2000);
    ValueFromPurchaseValue(stocks);
    TwoBucketsOfExample(s, gold1, gold2, stocks);
  }

  lemma ExampleDigits()
    ensures NatToDigits(1000) == "1000" && NatToDigits(500) == "500" && NatToDigits(2000) == "2000"
  {
  }

  lemma TwoBucketsOfExample(s: seq<Record>, gold1: Record, gold2: Record, stocks: Record)
    requires AssetValue(gold1) == 1000.0 && AssetValue(gold2) == 500.0 && AssetValue(stocks) == 2000.0
    requires Group(s) == [Bucket(Str("gold"), [gold1, gold2]), Bucket(Str("stocks"), [stocks])]
    ensures ChartData(Group(s)) == [ChartEntry(Str("gold"), 1500.0), ChartEntry(Str("stocks"), 2000.0)]
    ensures TotalPortfolio(Group(s)) == 3500.0
  {
    TwoBucketChart(Group(s), gold1, gold2, stocks, Str("gold"), Str("stocks"));
  }

  /** The chart and total of two buckets, from the assets' values alone. */
  lemma TwoBucketChart(g: seq<Bucket>, a: Record, b: Record, c: Record, k1: RawValue, k2: RawValue)
    requires g == [Bucket(k1, [a, b]), Bucket(k2, [c])]
    ensures ChartData(g) == [ChartEntry(k1, AssetValue(a) + AssetValue(b)), ChartEntry(k2, AssetValue(c))]
    ensures TotalPortfolio(g) == AssetValue(a) + AssetValue(b) + AssetValue(c)
  {
    SumOfTwo(AssetValue, a, b);
    SumOfOne(AssetValue, c);
    var chart := ChartData(g);
    assert chart[0] == ChartEntry(k1, AssetValue(a) + AssetValue(b));
    assert chart[1] == ChartEntry(k2, AssetValue(c));
    ChartAddsUpToTotal(g);
    SumOfTwo(EntryValue, chart[0], chart[1]);
    assert chart == [chart[0], chart[1]];
  }

  lemma SumOfOne<T>(f: T -> real, x: T)
    ensures Seqs.Sum(f, [x]) == f(x)
  {
    Seqs.SumSnoc(f, [], x);
    assert [] + [x] == [x];
  }

  lemma SumOfTwo<T>(f: T -> real, x: T, y: T)
    ensures Seqs.Sum(f, [x, y]) == f(x) + f(y)
  {
    SumOfOne(f, x);
    Seqs.SumSnoc(f, [x], y);
    assert [x] + [y] == [x, y];
  }

  /** Three assets, the first two under one key and the third under another,
      make two buckets. */
  lemma GoldAndStocksGroups(s: seq<Record>, gold1: Record, gold2: Record, stocks: Record, k1: RawValue, k2: RawValue)
    requires CategoryKey(gold1) == k1 && CategoryKey(gold2) == k1 && CategoryKey(stocks) == k2
    requires k1 != k2
    requires s == [gold1, gold2, stocks]
    ensures Group(s) == [Bucket(k1, [gold1, gold2]), Bucket(k2, [stocks])]
  {
    SameKeyPair(gold1, gold2, k1);
    GroupOpens([gold1, gold2], stocks, Bucket(k1, [gold1, gold2]));
    assert [gold1, gold2] + [stocks] == s;
  }

  /** Two assets under one key make one bucket. */
  lemma SameKeyPair(a: Record, b: Record, k: RawValue)
    requires CategoryKey(a) == k && CategoryKey(b) == k
    ensures Group([a, b]) == [Bucket(k, [a, b])]
  {
    GroupSnoc([], a);
    assert [] + [a] == [a];
    GroupJoins([a], b, k, [a]);
    assert [a] + [b] == [a, b];
  }

  /** An asset whose key has the only bucket joins that bucket. */
  lemma GroupJoins(s: seq<Record>, a: Record, k: RawValue, m: seq<Record>)
    requires Group(s) == [Bucket(k, m)] && CategoryKey(a) == k
    ensures Group(s + [a]) == [Bucket(k, m + [a])]
  {
    GroupSnoc(s, a);
    JoinsOnly(k, m, a);
  }

  lemma JoinsOnly(k: RawValue, m: seq<Record>, a: Record)
    requires CategoryKey(a) == k
    ensures AddToGroups([Bucket(k, m)], a) == [Bucket(k, m + [a])]
  {
    assert IndexOfKey([Bucket(k, m)], k) == 0;
  }

  /** An asset with a new key opens a bucket after the only one. */
  lemma GroupOpens(s: seq<Record>, a: Record, b: Bucket)
    requires Group(s) == [b] && CategoryKey(a) != b.key
    ensures Group(s + [a]) == [b, Bucket(CategoryKey(a), [a])]
  {
    GroupSnoc(s, a);
    OpensAfter(b, a);
  }

  lemma OpensAfter(b: Bucket, a: Record)
    requires CategoryKey(a) != b.key
    ensures AddToGroups([b], a) == [b, Bucket(CategoryKey(a), [a])]
  {
    assert Keys([b]) == [b.key];
  }

  /** The grouping of a longer list is one more step of the reduce. */
  lemma GroupSnoc(s: seq<Record>, a: Record)
    ensures Group(s + [a]) == AddToGroups(Group(s), a)
  {
    assert (s + [a])[..|s|] == s;
  }

  /** An asset whose `currentValue` is the text of `n` is worth `n`. */
  lemma CurrentValueDecides(a: Record, t: string, n: nat)
    requires t == NatToDigits(n)
    requires Get(a, "currentValue") == Str(t)
    ensures AssetValue(a) == n as real
  {
    NumOfNatText(n);
    assert ValueAliases[0] == "currentValue";
  }

  /** With none of the aliases before it present, `purchaseValue` decides. */
  lemma ValueFromPurchaseValue(a: Record)
    requires "currentValue" !in a && "current_value" !in a && "value" !in a
    requires "purchaseValue" in a && !IsNullish(a["purchaseValue"])
    ensures AssetValue(a) == NumValue(a["purchaseValue"])
  {
    assert ValueAliases[3] == "purchaseValue";
    forall j | 0 <= j < 3 ensures IsNullish(Get(a, ValueAliases[j])) {
      assert ValueAliases[j] in {"currentValue", "current_value", "value"};
    }
  }
}
