/**
 The dashboard: the value of each asset, the assets grouped by category,
 the per-category and overall totals that the tiles and the charts show,
 and the local removal of an asset after a delete.
 */
module Dashboard {
  import opened Wrappers
  import opened Text
  import opened JsNumbers
  import opened JsValues
  import Seqs

  // ---------------------------------------------------------------------
  // Reading values

  /** `num(val)`: `parseFloat(String(val ?? 0).replace(/,/g, ""))`, or 0
      when that is not finite. */
  function NumValue(v: RawValue): (r: real)
    ensures IsNullish(v) ==> r == 0.0
    ensures v.Num? ==> r == v.x
    ensures v.Str? && !StartsNumeric(TrimStart(RemoveCommas(v.s))) ==> r == 0.0
    ensures v.Str? && StartsWith(StripSign(TrimStart(RemoveCommas(v.s))).1, "Infinity") ==> r == 0.0
    ensures v.Bool? ==> r == 0.0
  {
    var w := if IsNullish(v) then Num(0.0) else v;
    BoolIsNotANumber(w);
    // `String(x)` of a finite number has no comma and reads back as `x`
    if w.Num? then w.x else FiniteOrZero(ParseFloat(RemoveCommas(ToText(w))))
  }

  /** "true" and "false" have no comma and do not start like a number. */
  lemma BoolIsNotANumber(v: RawValue)
    ensures v.Bool? ==> ParseFloat(RemoveCommas(ToText(v))).NaN?
  {
    if v.Bool? {
      var t := ToText(v);
      assert t[0] in "tf";
      forall i | 0 <= i < |t| ensures t[i] != ',' {
        assert t[i] in "truefals";
      }
      RemoveCommasNoop(t);
      assert !IsWhitespace(t[0]);
      assert TrimStart(t) == t;
    }
  }

  /** A comma anywhere in the text is dropped before parsing. */
  lemma NumDropsComma(a: string, b: string)
    ensures NumValue(Str(a + "," + b)) == NumValue(Str(a + b))
  {
    NumOfText(a + "," + b);
    NumOfText(a + b);
    CommaBetween(a, b);
  }

  lemma NumOfText(s: string)
    ensures NumValue(Str(s)) == FiniteOrZero(ParseFloat(RemoveCommas(s)))
  {
  }

  lemma CommaBetween(a: string, b: string)
    ensures RemoveCommas(a + "," + b) == RemoveCommas(a + b)
  {
    RemoveCommasAppend(a + ",", b);
    RemoveCommasAppend(a, ",");
    RemoveCommasAppend(a, b);
    assert RemoveCommas(",") == "" by {
      assert ","[1..] == "";
    }
  }

  /** Digits written with a thousands separator read as the digits without
      it: "1,200" is 1200. */
  lemma NumOfGroupedDigits(i: Digits, j: Digits)
    requires |i| + |j| > 0
    ensures NumValue(Str(i + "," + j)) == DigitsValue(i + j) as real
  {
    NumDropsComma(i, j);
    DigitsConcat(i, j);
    NumOfDigits(i + j);
  }

  lemma DigitsConcat(i: Digits, j: Digits)
    ensures AllDigits(i + j)
  {
    forall k | 0 <= k < |i + j| ensures IsDigit((i + j)[k]) {
      if k < |i| { assert (i + j)[k] == i[k]; } else { assert (i + j)[k] == j[k - |i|]; }
    }
  }

  /** A run of digits reads as the number it denotes. */
  lemma NumOfDigits(ds: Digits)
    requires |ds| > 0
    ensures NumValue(Str(ds)) == DigitsValue(ds) as real
  {
    NumOfText(ds);
    forall k | 0 <= k < |ds| ensures ds[k] != ',' {
      assert IsDigit(ds[k]);
    }
    RemoveCommasNoop(ds);
    DigitsRoundTrip(ds);
  }

  /** The fields `assetValue` consults, in order of precedence. */
  const ValueAliases: seq<string> := ["currentValue", "current_value", "value", "purchaseValue", "purchase_value"]

  /** `asset.currentValue`, `asset.current_value`, ... in alias order. */
  function AliasValues(a: Record): (vs: seq<RawValue>)
    ensures |vs| == |ValueAliases|
    ensures forall i :: 0 <= i < |vs| ==> vs[i] == Get(a, ValueAliases[i])
  {
    seq(|ValueAliases|, i requires 0 <= i < |ValueAliases| => Get(a, ValueAliases[i]))
  }

  /** `assetValue(asset)`: `num` of the first alias that is neither `null`
      nor `undefined`; 0 when every alias is. A present but unreadable
      value (an empty string, say) still ends the search. */
  function AssetValue(a: Record): (r: real)
    ensures (forall i :: 0 <= i < |ValueAliases| ==> IsNullish(Get(a, ValueAliases[i]))) ==> r == 0.0
    ensures forall i :: (0 <= i < |ValueAliases| && !IsNullish(Get(a, ValueAliases[i]))
                         && forall j :: 0 <= j < i ==> IsNullish(Get(a, ValueAliases[j])))
                        ==> r == NumValue(Get(a, ValueAliases[i]))
  {
    NumValue(Coalesce(AliasValues(a)))
  }

  /** An empty `currentValue` counts as 0, whatever the later aliases hold. */
  lemma EmptyCurrentValueIsZero(a: Record)
    requires Get(a, "currentValue") == Str("")
    ensures AssetValue(a) == 0.0
  {
    assert ValueAliases[0] == "currentValue";
    assert !StartsNumeric(TrimStart(RemoveCommas("")));
  }

  // ---------------------------------------------------------------------
  // Grouping

  /** The bucket an asset is filed under: `a.category || "Uncategorized"`. */
  function CategoryKey(a: Record): (k: RawValue)
    ensures IsTruthy(k)
    ensures IsTruthy(Get(a, "category")) ==> k == Get(a, "category")
    ensures !IsTruthy(Get(a, "category")) ==> k == Str("Uncategorized")
  {
    var c := Get(a, "category");
    if IsTruthy(c) then c else Str("Uncategorized")
  }

  function HasKey(k: RawValue): Record -> bool {
    a => CategoryKey(a) == k
  }

  /** One entry of the `grouped` object: a key and the assets pushed to it. */
  datatype Bucket = Bucket(key: RawValue, members: seq<Record>)

  /** The keys of the buckets, in order. */
  function Keys(groups: seq<Bucket>): (ks: seq<RawValue>)
    ensures |ks| == |groups|
    ensures forall i :: 0 <= i < |groups| ==> ks[i] == groups[i].key
  {
    seq(|groups|, i requires 0 <= i < |groups| => groups[i].key)
  }

  /** `acc[key]`: the position of the bucket for `key`, or -1. */
  function IndexOfKey(groups: seq<Bucket>, key: RawValue): (i: int)
    ensures -1 <= i < |groups|
    ensures 0 <= i ==> groups[i].key == key
    ensures i < 0 <==> key !in Keys(groups)
    decreases |groups|
  {
    if |groups| == 0 then -1
    else if groups[0].key == key then 0
    else
      var j := IndexOfKey(groups[1..], key);
      assert Keys(groups[1..]) == Keys(groups)[1..];
      if j < 0 then -1 else j + 1
  }

  /** One step of the reduce: push the asset to its bucket, creating the
      bucket at the end when the key is new. */
  function AddToGroups(groups: seq<Bucket>, a: Record): (r: seq<Bucket>)
    ensures |r| == if CategoryKey(a) in Keys(groups) then |groups| else |groups| + 1
    ensures forall i :: 0 <= i < |groups| ==> r[i].key == groups[i].key
    ensures forall i :: 0 <= i < |groups| ==>
              r[i].members == groups[i].members + (if i == IndexOfKey(groups, CategoryKey(a)) then [a] else [])
    ensures |r| > |groups| ==> r[|groups|] == Bucket(CategoryKey(a), [a])
  {
    var key := CategoryKey(a);
    var i := IndexOfKey(groups, key);
    if i < 0 then groups + [Bucket(key, [a])]
    else groups[i := Bucket(key, groups[i].members + [a])]
  }

  /** The position of the first asset filed under `k`, or `|s|` if none is. */
  function FirstIndex(s: seq<Record>, k: RawValue): (n: nat)
    ensures n <= |s|
    ensures n < |s| ==> CategoryKey(s[n]) == k
    ensures forall j :: 0 <= j < n ==> CategoryKey(s[j]) != k
    decreases |s|
  {
    if |s| == 0 then 0
    else
      var n := FirstIndex(s[..|s| - 1], k);
      if n < |s| - 1 || CategoryKey(s[|s| - 1]) == k then n else |s|
  }

  /** No key has two buckets. */
  ghost predicate DistinctKeys(groups: seq<Bucket>) {
    forall i, j :: 0 <= i < j < |groups| ==> groups[i].key != groups[j].key
  }

  /** Each bucket holds exactly the assets filed under its key, in input order. */
  ghost predicate MembersByKey(s: seq<Record>, groups: seq<Bucket>) {
    forall i :: 0 <= i < |groups| ==> groups[i].members == Seqs.Filter(HasKey(groups[i].key), s)
  }

  /** Every asset's key has a bucket. */
  ghost predicate CoversInput(s: seq<Record>, groups: seq<Bucket>) {
    forall j :: 0 <= j < |s| ==> CategoryKey(s[j]) in Keys(groups)
  }

  /** Every bucket's key occurs in the input, and the buckets are ordered by
      where their key first occurs. */
  ghost predicate FirstSeenOrder(s: seq<Record>, groups: seq<Bucket>) {
    && (forall i :: 0 <= i < |groups| ==> FirstIndex(s, groups[i].key) < |s|)
    && (forall i, j :: 0 <= i < j < |groups| ==> FirstIndex(s, groups[i].key) < FirstIndex(s, groups[j].key))
  }

  /** `groups` is the stable partition of `s` by category key. */
  ghost predicate IsGrouping(s: seq<Record>, groups: seq<Bucket>) {
    DistinctKeys(groups) && MembersByKey(s, groups) && CoversInput(s, groups) && FirstSeenOrder(s, groups)
  }

  /** `grouped`: the assets reduced into buckets by category key. */
  function Group(s: seq<Record>): (groups: seq<Bucket>)
    ensures IsGrouping(s, groups)
    decreases |s|
  {
    if |s| == 0 then []
    else
      var init, last := s[..|s| - 1], s[|s| - 1];
      assert s == init + [last];
      GroupStep(init, last, Group(init));
      AddToGroups(Group(init), last)
  }

  lemma GroupStep(s: seq<Record>, a: Record, groups: seq<Bucket>)
    requires IsGrouping(s, groups)
    ensures IsGrouping(s + [a], AddToGroups(groups, a))
  {
    var k := CategoryKey(a);
    var i := IndexOfKey(groups, k);
    forall m | 0 <= m < |groups| ensures FirstIndex(s + [a], groups[m].key) == FirstIndex(s, groups[m].key) {
      FirstIndexSnoc(s, a, groups[m].key);
    }
    if i < 0 {
      NewKeyStep(s, a, groups);
    } else {
      KnownKeyStep(s, a, groups, i);
    }
  }

  /** Appending an asset does not move the first occurrence of a key that
      already occurs. */
  lemma FirstIndexSnoc(s: seq<Record>, a: Record, k: RawValue)
    ensures FirstIndex(s, k) < |s| ==> FirstIndex(s + [a], k) == FirstIndex(s, k)
    ensures FirstIndex(s, k) == |s| && CategoryKey(a) == k ==> FirstIndex(s + [a], k) == |s|
  {
    assert (s + [a])[..|s|] == s;
  }

  lemma NewKeyStep(s: seq<Record>, a: Record, groups: seq<Bucket>)
    requires IsGrouping(s, groups)
    requires CategoryKey(a) !in Keys(groups)
    requires forall m :: 0 <= m < |groups| ==> FirstIndex(s + [a], groups[m].key) == FirstIndex(s, groups[m].key)
    ensures IsGrouping(s + [a], groups + [Bucket(CategoryKey(a), [a])])
  {
    var k := CategoryKey(a);
    var s', g' := s + [a], groups + [Bucket(k, [a])];
    assert Keys(g') == Keys(groups) + [k];
    NewKeyMembers(s, a, groups);
    NewKeyOrder(s, a, groups);
  }

  /** The new bucket holds just the new asset; the old ones are unchanged. */
  lemma NewKeyMembers(s: seq<Record>, a: Record, groups: seq<Bucket>)
    requires MembersByKey(s, groups) && CoversInput(s, groups)
    requires CategoryKey(a) !in Keys(groups)
    ensures MembersByKey(s + [a], groups + [Bucket(CategoryKey(a), [a])])
  {
    var k := CategoryKey(a);
    var s', g' := s + [a], groups + [Bucket(k, [a])];
    forall m | 0 <= m < |groups| ensures g'[m].members == Seqs.Filter(HasKey(g'[m].key), s') {
      Seqs.FilterSnoc(HasKey(groups[m].key), s, a);
    }
    forall j | 0 <= j < |s| ensures !HasKey(k)(s[j]) {
      assert CategoryKey(s[j]) in Keys(groups);
    }
    Seqs.FilterNone(HasKey(k), s);
    Seqs.FilterSnoc(HasKey(k), s, a);
  }

  /** A new key first occurs at the end, after every key seen before. */
  lemma NewKeyOrder(s: seq<Record>, a: Record, groups: seq<Bucket>)
    requires FirstSeenOrder(s, groups) && CoversInput(s, groups)
    requires CategoryKey(a) !in Keys(groups)
    requires forall m :: 0 <= m < |groups| ==> FirstIndex(s + [a], groups[m].key) == FirstIndex(s, groups[m].key)
    ensures FirstSeenOrder(s + [a], groups + [Bucket(CategoryKey(a), [a])])
  {
    var k := CategoryKey(a);
    assert FirstIndex(s, k) == |s|;
    FirstIndexSnoc(s, a, k);
  }

  lemma KnownKeyStep(s: seq<Record>, a: Record, groups: seq<Bucket>, i: nat)
    requires IsGrouping(s, groups)
    requires i < |groups| && groups[i].key == CategoryKey(a)
    requires forall m :: 0 <= m < |groups| ==> FirstIndex(s + [a], groups[m].key) == FirstIndex(s, groups[m].key)
    ensures IsGrouping(s + [a], groups[i := Bucket(CategoryKey(a), groups[i].members + [a])])
  {
    var k := CategoryKey(a);
    var s', g' := s + [a], groups[i := Bucket(k, groups[i].members + [a])];
    assert Keys(g') == Keys(groups);
    forall m | 0 <= m < |groups| ensures g'[m].members == Seqs.Filter(HasKey(g'[m].key), s') {
      Seqs.FilterSnoc(HasKey(groups[m].key), s, a);
    }
  }

  /** The properties every plain object inherits from `Object.prototype`;
      `acc[name]` on the `{}` the reduce starts from is truthy for each. */
  const InheritedNames: set<string> := {
    "constructor", "__proto__", "hasOwnProperty", "isPrototypeOf", "propertyIsEnumerable",
    "toLocaleString", "toString", "valueOf",
    "__defineGetter__", "__defineSetter__", "__lookupGetter__", "__lookupSetter__"
  }

  /** Whether `acc[key]` finds an inherited property rather than a bucket. */
  predicate IsInherited(key: RawValue) {
    key.Str? && key.s in InheritedNames
  }

  /** The reduce as written, on a plain object: for an inherited key
      `!acc[cat]` is false, no array is created, and `acc[cat].push` throws
      (`None`). */
  function GroupAsWritten(s: seq<Record>): (r: Option<seq<Bucket>>)
    ensures r.Some? ==> r.value == Group(s)
    decreases |s|
  {
    if |s| == 0 then Some([])
    else
      match GroupAsWritten(s[..|s| - 1])
      case None => None
      case Some(groups) =>
        if IsInherited(CategoryKey(s[|s| - 1])) then None else Some(AddToGroups(groups, s[|s| - 1]))
  }

  /** One asset whose category is an inherited name makes the whole
      grouping throw, and with it the dashboard's render. */
  lemma {:induction false} InheritedCategoryThrows(s: seq<Record>, j: nat)
    requires j < |s| && IsInherited(CategoryKey(s[j]))
    ensures GroupAsWritten(s) == None
    decreases |s|
  {
    if j < |s| - 1 {
      InheritedCategoryThrows(s[..|s| - 1], j);
    }
  }

  /** An asset filed under "toString" is enough. */
  lemma ToStringCategoryThrows(a: Record)
    requires Get(a, "category") == Str("toString")
    ensures GroupAsWritten([a]) == None
  {
    InheritedCategoryThrows([a], 0);
  }

  /** Without inherited names the reduce as written is the grouping. */
  lemma {:induction false} GroupAsWrittenOtherwise(s: seq<Record>)
    requires forall j :: 0 <= j < |s| ==> !IsInherited(CategoryKey(s[j]))
    ensures GroupAsWritten(s) == Some(Group(s))
    decreases |s|
  {
    if |s| > 0 {
      GroupAsWrittenOtherwise(s[..|s| - 1]);
    }
  }

  // ---------------------------------------------------------------------
  // Flattening and totals

  /** `Object.values(grouped).flat()` */
  function Flatten(groups: seq<Bucket>): (r: seq<Record>)
    ensures forall i, x :: 0 <= i < |groups| && x in groups[i].members ==> x in r
    ensures forall x :: x in r ==> exists i :: 0 <= i < |groups| && x in groups[i].members
    decreases |groups|
  {
    if |groups| == 0 then [] else Flatten(groups[..|groups| - 1]) + groups[|groups| - 1].members
  }

  lemma {:induction false} FlattenAppend(g: seq<Bucket>, h: seq<Bucket>)
    ensures Flatten(g + h) == Flatten(g) + Flatten(h)
    decreases |h|
  {
    if |h| == 0 {
      assert g + h == g;
    } else {
      var h', last := h[..|h| - 1], h[|h| - 1];
      assert (g + h)[..|g + h| - 1] == g + h';
      FlattenAppend(g, h');
    }
  }

  /** Flattening around one bucket. */
  lemma FlattenAround(groups: seq<Bucket>, i: nat, b: Bucket)
    requires i < |groups|
    ensures Flatten(groups[i := b]) == Flatten(groups[..i]) + b.members + Flatten(groups[i + 1..])
  {
    assert groups[i := b] == groups[..i] + [b] + groups[i + 1..];
    FlattenAppend(groups[..i] + [b], groups[i + 1..]);
    FlattenAppend(groups[..i], [b]);
    assert Flatten([b]) == b.members by {
      assert [b][..0] == [];
    }
  }

  /** One reduce step adds the asset to the flattened buckets once, and adds
      `f` of it to their sum. */
  lemma FlattenAddToGroups(groups: seq<Bucket>, a: Record, f: Record -> real)
    ensures multiset(Flatten(AddToGroups(groups, a))) == multiset(Flatten(groups)) + multiset{a}
    ensures Seqs.Sum(f, Flatten(AddToGroups(groups, a))) == Seqs.Sum(f, Flatten(groups)) + f(a)
  {
    var i := IndexOfKey(groups, CategoryKey(a));
    if i < 0 {
      var g' := groups + [Bucket(CategoryKey(a), [a])];
      assert g'[..|g'| - 1] == groups;
      Seqs.SumSnoc(f, Flatten(groups), a);
    } else {
      FlattenPushAt(groups, i, a, f);
    }
  }

  /** Pushing to an existing bucket adds the asset once to the flattening. */
  lemma FlattenPushAt(groups: seq<Bucket>, i: nat, a: Record, f: Record -> real)
    requires i < |groups|
    ensures var g' := groups[i := Bucket(groups[i].key, groups[i].members + [a])];
            multiset(Flatten(g')) == multiset(Flatten(groups)) + multiset{a}
            && Seqs.Sum(f, Flatten(g')) == Seqs.Sum(f, Flatten(groups)) + f(a)
  {
    var b := groups[i];
    var pre, post := Flatten(groups[..i]), Flatten(groups[i + 1..]);
    FlattenAround(groups, i, b);
    assert groups[i := b] == groups;
    FlattenAround(groups, i, Bucket(b.key, b.members + [a]));
    SumAround(f, pre, b.members, post, a);
    assert multiset(pre + (b.members + [a]) + post) == multiset(pre + b.members + post) + multiset{a};
  }

  lemma SumAround(f: Record -> real, pre: seq<Record>, m: seq<Record>, post: seq<Record>, a: Record)
    ensures Seqs.Sum(f, pre + (m + [a]) + post) == Seqs.Sum(f, pre + m + post) + f(a)
  {
    Seqs.SumAppend(f, pre + m, post);
    Seqs.SumAppend(f, pre, m);
    Seqs.SumAppend(f, pre + (m + [a]), post);
    Seqs.SumAppend(f, pre, m + [a]);
    Seqs.SumSnoc(f, m, a);
  }

  /** Grouping loses and duplicates nothing: the flattened buckets are a
      permutation of the assets. */
  lemma {:induction false} GroupIsPermutation(s: seq<Record>)
    ensures multiset(Flatten(Group(s))) == multiset(s)
    decreases |s|
  {
    if |s| > 0 {
      var init, last := s[..|s| - 1], s[|s| - 1];
      GroupIsPermutation(init);
      GroupOfSnoc(s);
      PermutationStep(s, Group(init));
    }
  }

  /** The grouping of a nonempty list is one reduce step after the grouping
      of all but its last asset. */
  lemma GroupOfSnoc(s: seq<Record>)
    requires |s| > 0
    ensures Group(s) == AddToGroups(Group(s[..|s| - 1]), s[|s| - 1])
  {
  }

  lemma PermutationStep(s: seq<Record>, g: seq<Bucket>)
    requires |s| > 0 && multiset(Flatten(g)) == multiset(s[..|s| - 1])
    ensures multiset(Flatten(AddToGroups(g, s[|s| - 1]))) == multiset(s)
  {
    Seqs.SnocLast(s);
    FlattenAddToGroups(g, s[|s| - 1], AssetValue);
  }

  /** `totalPortfolio`: the values of all grouped assets added up. */
  function TotalPortfolio(groups: seq<Bucket>): real {
    Seqs.Sum(AssetValue, Flatten(groups))
  }

  /** The total over the buckets is the total over the assets, in the
      order they were fetched. */
  lemma {:induction false} TotalIsSumOfAssets(s: seq<Record>)
    ensures TotalPortfolio(Group(s)) == Seqs.Sum(AssetValue, s)
    decreases |s|
  {
    if |s| > 0 {
      var init, last := s[..|s| - 1], s[|s| - 1];
      TotalIsSumOfAssets(init);
      GroupOfSnoc(s);
      TotalStep(s, Group(init));
    }
  }

  lemma TotalStep(s: seq<Record>, g: seq<Bucket>)
    requires |s| > 0 && TotalPortfolio(g) == Seqs.Sum(AssetValue, s[..|s| - 1])
    ensures TotalPortfolio(AddToGroups(g, s[|s| - 1])) == Seqs.Sum(AssetValue, s)
  {
    Seqs.SnocLast(s);
    FlattenAddToGroups(g, s[|s| - 1], AssetValue);
    Seqs.SumSnoc(AssetValue, s[..|s| - 1], s[|s| - 1]);
  }

  /** One bar or pie slice: a category key and the total of its assets. */
  datatype ChartEntry = ChartEntry(name: RawValue, value: real)

  function EntryValue(e: ChartEntry): real {
    e.value
  }

  /** `chartData`: one entry per bucket, in bucket order. */
  function ChartData(groups: seq<Bucket>): (r: seq<ChartEntry>)
    ensures |r| == |groups|
    ensures forall i :: 0 <= i < |r| ==> r[i].name == groups[i].key
    ensures forall i :: 0 <= i < |r| ==> r[i].value == Seqs.Sum(AssetValue, groups[i].members)
  {
    seq(|groups|, i requires 0 <= i < |groups| => ChartEntry(groups[i].key, Seqs.Sum(AssetValue, groups[i].members)))
  }

  /** The chart's values add up to the portfolio total. */
  lemma {:induction false} ChartAddsUpToTotal(groups: seq<Bucket>)
    ensures Seqs.Sum(EntryValue, ChartData(groups)) == TotalPortfolio(groups)
    decreases |groups|
  {
    if |groups| > 0 {
      var init, last := groups[..|groups| - 1], groups[|groups| - 1];
      ChartAddsUpToTotal(init);
      var c := ChartData(groups);
      assert c[..|c| - 1] == ChartData(init);
      Seqs.SumAppend(AssetValue, Flatten(init), last.members);
    }
  }

  /** One category tile: the key, the total it shows and its item count. */
  datatype Tile = Tile(name: RawValue, total: real, count: nat)

  /** The tiles, one per bucket, each computing its own total. */
  function Tiles(groups: seq<Bucket>): (r: seq<Tile>)
    ensures |r| == |groups|
    ensures forall i :: 0 <= i < |r| ==> r[i].name == groups[i].key && r[i].count == |groups[i].members|
    ensures forall i :: 0 <= i < |r| ==> r[i].total == ChartData(groups)[i].value
  {
    seq(|groups|, i requires 0 <= i < |groups| => Tile(groups[i].key, Seqs.Sum(AssetValue, groups[i].members), |groups[i].members|))
  }

  /** No assets, no buckets; and the other way round. */
  lemma NoAssetsNoBuckets(s: seq<Record>)
    ensures |Group(s)| == 0 <==> |s| == 0
    ensures |s| == 0 ==> ChartData(Group(s)) == [] && TotalPortfolio(Group(s)) == 0.0
  {
    var g := Group(s);
    if |s| > 0 {
      assert CategoryKey(s[0]) in Keys(g);
    }
  }

  // ---------------------------------------------------------------------
  // Fetching and deleting

  /** `a.id !== id` */
  function KeepsId(id: RawValue): Record -> bool {
    a => Get(a, "id") != id
  }

  function HasId(id: RawValue): Record -> bool {
    a => Get(a, "id") == id
  }

  /** `removeAssetLocally(id)`: `prev.filter((a) => a.id !== id)` */
  function RemoveById(s: seq<Record>, id: RawValue): (r: seq<Record>)
    ensures forall i :: 0 <= i < |r| ==> Get(r[i], "id") != id
  {
    Seqs.Filter(KeepsId(id), s)
  }

  /** Exactly the assets with that id go; every other asset stays as often as
      it was there. */
  lemma RemoveByIdCount(s: seq<Record>, id: RawValue, a: Record)
    ensures multiset(RemoveById(s, id))[a] == if Get(a, "id") == id then 0 else multiset(s)[a]
  {
    Seqs.FilterMultiplicity(KeepsId(id), s, a);
  }

  /** Removal keeps the order of the remaining assets. */
  lemma RemoveByIdAppend(a: seq<Record>, b: seq<Record>, id: RawValue)
    ensures RemoveById(a + b, id) == RemoveById(a, id) + RemoveById(b, id)
  {
    Seqs.FilterAppend(KeepsId(id), a, b);
  }

  /** Removing an id no asset carries changes nothing. */
  lemma RemoveAbsentId(s: seq<Record>, id: RawValue)
    requires forall i :: 0 <= i < |s| ==> Get(s[i], "id") != id
    ensures RemoveById(s, id) == s
  {
    Seqs.FilterKeepsAll(KeepsId(id), s);
  }

  /** After a removal the total drops by exactly the value of the removed
      assets. */
  lemma TotalAfterRemove(s: seq<Record>, id: RawValue)
    ensures Seqs.Sum(AssetValue, RemoveById(s, id))
            == Seqs.Sum(AssetValue, s) - Seqs.Sum(AssetValue, Seqs.Filter(HasId(id), s))
  {
    Seqs.SumSplitsByFilter(AssetValue, HasId(id), KeepsId(id), s);
  }

  /** After a delete, the grouped total drops by exactly the value of the
      removed assets; no other asset's value is lost. */
  lemma TotalAfterDelete(s: seq<Record>, id: RawValue)
    ensures TotalPortfolio(Group(RemoveById(s, id)))
            == TotalPortfolio(Group(s)) - Seqs.Sum(AssetValue, Seqs.Filter(HasId(id), s))
  {
    TotalIsSumOfAssets(s);
    TotalIsSumOfAssets(RemoveById(s, id));
    TotalAfterRemove(s, id);
  }

  /** The decoded body of the list request. */
  datatype ListBody = Records(assets: seq<Record>) | Falsy

  /** The list request on mounting: `setAssets(data || [])`; `reply` is
      `None` when the request or the decoding throws, which is only logged. */
  function AfterList(assets: seq<Record>, reply: Option<ListBody>): (r: seq<Record>)
    ensures reply.None? ==> r == assets
    ensures reply.Some? && reply.value.Falsy? ==> r == []
    ensures reply.Some? && reply.value.Records? ==> r == reply.value.assets
  {
    match reply
    case None => assets
    case Some(Records(data)) => data
    case Some(Falsy) => []
  }

  /** A delivered list replaces the dashboard's list wholesale: what was
      shown before has no effect, and the portfolio total becomes the sum of
      the delivered assets (0 for a falsy body). */
  lemma ListReplyReplaces(a1: seq<Record>, a2: seq<Record>, reply: Option<ListBody>)
    requires reply.Some?
    ensures AfterList(a1, reply) == AfterList(a2, reply)
    ensures TotalPortfolio(Group(AfterList(a1, reply)))
            == if reply.value.Records? then Seqs.Sum(AssetValue, reply.value.assets) else 0.0
  {
    TotalIsSumOfAssets(AfterList(a1, reply));
  }

  /** How the DELETE request ends. */
  datatype DeleteReply = DeleteFailed | DeleteResponse(status: int)

  /** The delete as the handler is written: any reply, even an error status,
      removes the asset locally. */
  function AfterDeleteAsWritten(assets: seq<Record>, id: RawValue, reply: DeleteReply): (r: seq<Record>)
    ensures reply.DeleteFailed? ==> r == assets
    ensures reply.DeleteResponse? ==> r == RemoveById(assets, id)
    ensures reply.DeleteResponse? ==> forall a ::
              multiset(r)[a] == if Get(a, "id") == id then 0 else multiset(assets)[a]
  {
    match reply
    case DeleteFailed => assets
    case DeleteResponse(_) =>
      forall a ensures multiset(RemoveById(assets, id))[a] == if Get(a, "id") == id then 0 else multiset(assets)[a] {
        RemoveByIdCount(assets, id, a);
      }
      RemoveById(assets, id)
  }

  /** A refused delete still takes the asset off the dashboard. */
  lemma RefusedDeleteRemoves(asset: Record)
    ensures var id := Get(asset, "id");
            !IsOk(404) && AfterDeleteAsWritten([asset], id, DeleteResponse(404)) == []
  {
    var id := Get(asset, "id");
    assert [asset][..0] == [];
    assert !KeepsId(id)(asset);
  }

  /** The delete with the status checked: only a 2xx reply removes the asset;
      every failure leaves the list as it was. */
  function AfterDelete(assets: seq<Record>, id: RawValue, reply: DeleteReply): (r: seq<Record>)
    ensures !(reply.DeleteResponse? && IsOk(reply.status)) ==> r == assets
    ensures reply.DeleteResponse? && IsOk(reply.status) ==> r == RemoveById(assets, id)
    ensures reply.DeleteResponse? && IsOk(reply.status) ==> forall a ::
              multiset(r)[a] == if Get(a, "id") == id then 0 else multiset(assets)[a]
  {
    match reply
    case DeleteResponse(status) =>
      if IsOk(status) then
        forall a ensures multiset(RemoveById(assets, id))[a] == if Get(a, "id") == id then 0 else multiset(assets)[a] {
          RemoveByIdCount(assets, id, a);
        }
        RemoveById(assets, id)
      else assets
    case DeleteFailed => assets
  }
}
