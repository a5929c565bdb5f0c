/**
 * Expansion of a backend address expression such as
 * `192.168.1.[5:6],192.168.1.10` into the list of addresses it names
 * (class `IpRanges`).
 */
module IpRanges {
  import opened Wrappers
  import opened Text

  /** Why a range item could not be expanded (Python raises ValueError). */
  datatype RangeError =
    | MissingOpenBracket(item: string)
    | MissingColon(item: string)
    | MissingCloseBracket(item: string)
    | BadBound(item: string, text: string)

  /**
   * A range item cut at its first `[`, first `:` and first `]`:
   * `prefix[fromText:toText]suffix`, with the bounds' values.
   */
  datatype RangeItem = RangeItem(prefix: string, fromText: string, toText: string, suffix: string, lo: nat, hi: nat)

  /** `is_range`: an item is a range exactly when it contains a colon. */
  predicate IsRange(ip: string) {
    ':' in ip
  }

  /** The slicing and `int` calls at the top of `range_to_list`, in the order Python evaluates them. */
  function SplitRange(ip: string): Result<RangeItem, RangeError> {
    match IndexOf(ip, '[')
    case None => Err(MissingOpenBracket(ip))
    case Some(open) =>
      match IndexOf(ip, ':')
      case None => Err(MissingColon(ip))
      case Some(colon) =>
        match IndexOf(ip, ']')
        case None => Err(MissingCloseBracket(ip))
        case Some(close) =>
          var fromText := Slice(ip, open + 1, colon);
          var toText := Slice(ip, colon + 1, close);
          match ParseNat(fromText)
          case None => Err(BadBound(ip, fromText))
          case Some(lo) =>
            match ParseNat(toText)
            case None => Err(BadBound(ip, toText))
            case Some(hi) => Ok(RangeItem(ip[..open], fromText, toText, ip[close + 1..], lo, hi))
  }

  /** The text a range item was cut from. */
  function ItemText(it: RangeItem): string {
    it.prefix + "[" + it.fromText + ":" + it.toText + "]" + it.suffix
  }

  /** The grammar of a range item: a prefix free of `[`, `:` and `]`, two decimal bounds, any suffix. */
  predicate WellFormed(it: RangeItem) {
    '[' !in it.prefix && ':' !in it.prefix && ']' !in it.prefix &&
    ParseNat(it.fromText) == Some(it.lo) && ParseNat(it.toText) == Some(it.hi)
  }

  lemma DigitsHaveNoMarks(s: string)
    requires AllDigits(s)
    ensures '[' !in s && ':' !in s && ']' !in s
  {
  }

  /** An accepted item is cut at the first `[`, `:` and `]`, and both bounds are non-empty numbers. */
  lemma SplitRangeCuts(ip: string, open: nat, colon: nat, close: nat)
    requires SplitRange(ip).Ok?
    requires IndexOf(ip, '[') == Some(open) && IndexOf(ip, ':') == Some(colon) && IndexOf(ip, ']') == Some(close)
    ensures open + 1 < colon && colon + 1 < close < |ip|
    ensures SplitRange(ip).value ==
      RangeItem(ip[..open], ip[open + 1..colon], ip[colon + 1..close], ip[close + 1..],
                SplitRange(ip).value.lo, SplitRange(ip).value.hi)
    ensures ParseNat(ip[open + 1..colon]) == Some(SplitRange(ip).value.lo)
    ensures ParseNat(ip[colon + 1..close]) == Some(SplitRange(ip).value.hi)
  {
  }

  /** Every item SplitRange accepts is well formed and is rebuilt exactly from its parts. */
  lemma SplitRangeShape(ip: string)
    requires SplitRange(ip).Ok?
    ensures WellFormed(SplitRange(ip).value)
    ensures ItemText(SplitRange(ip).value) == ip
    ensures SplitRange(ip).value.prefix == ip[..|SplitRange(ip).value.prefix|]
  {
    var it := SplitRange(ip).value;
    IndexOfShape(ip, '[');
    IndexOfShape(ip, ':');
    IndexOfShape(ip, ']');
    var open := IndexOf(ip, '[').value;
    var colon := IndexOf(ip, ':').value;
    var close := IndexOf(ip, ']').value;
    SplitRangeCuts(ip, open, colon, close);
    Reassemble(ip, open, colon, close);
    NotInShorter(ip, open, colon, ':');
    NotInShorter(ip, open, close, ']');
  }

  lemma NotInShorter(s: string, i: nat, j: nat, c: char)
    requires i <= j <= |s| && c !in s[..j]
    ensures c !in s[..i]
  {
    assert s[..i] == s[..j][..i];
  }

  lemma Reassemble(s: string, open: nat, colon: nat, close: nat)
    requires open < colon < close < |s|
    requires s[open] == '[' && s[colon] == ':' && s[close] == ']'
    ensures s == s[..open] + "[" + s[open + 1..colon] + ":" + s[colon + 1..close] + "]" + s[close + 1..]
  {
    assert s == s[..open] + [s[open]] + s[open + 1..colon] + [s[colon]] + s[colon + 1..close] + [s[close]] + s[close + 1..];
  }

  /** Conversely, every well-formed item is accepted and cut back into the same parts. */
  lemma SplitRangeOfText(it: RangeItem)
    requires WellFormed(it)
    ensures SplitRange(ItemText(it)) == Ok(it)
  {
    var ip := ItemText(it);
    var p, f, t := it.prefix, it.fromText, it.toText;
    DigitsHaveNoMarks(f);
    DigitsHaveNoMarks(t);
    var open, colon, close := |p|, |p| + 1 + |f|, |p| + 1 + |f| + 1 + |t|;
    assert ip[..open] == p;
    IndexOfAt(ip, '[', open);
    assert ip[..colon] == p + "[" + f;
    IndexOfAt(ip, ':', colon);
    assert ip[..close] == p + "[" + f + ":" + t;
    IndexOfAt(ip, ']', close);
    assert Slice(ip, open + 1, colon) == f;
    assert Slice(ip, colon + 1, close) == t;
    assert ip[close + 1..] == it.suffix;
  }

  /**
   * `prefix + str(i)` for `i` from `lo` to `hi` in ascending order, and nothing
   * when `lo > hi` (Python's `range` is then empty).
   */
  function Ascending(prefix: string, lo: nat, hi: int): (r: seq<string>)
    ensures |r| == if lo <= hi then hi - lo + 1 else 0
    ensures forall k :: 0 <= k < |r| ==> r[k] == prefix + NatToStr(lo + k)
    decreases hi - lo
  {
    if hi < lo then [] else Ascending(prefix, lo, hi - 1) + [prefix + NatToStr(hi)]
  }

  /** The addresses of a range are pairwise distinct. */
  lemma AscendingDistinct(prefix: string, lo: nat, hi: int, j: nat, k: nat)
    requires j < k < |Ascending(prefix, lo, hi)|
    ensures Ascending(prefix, lo, hi)[j] != Ascending(prefix, lo, hi)[k]
  {
    var r := Ascending(prefix, lo, hi);
    if r[j] == r[k] {
      assert r[j][|prefix|..] == NatToStr(lo + j);
      assert r[k][|prefix|..] == NatToStr(lo + k);
      NatToStrInjective(lo + j, lo + k);
    }
  }

  /** Every address of a range is the prefix followed by a number between the bounds. */
  lemma AscendingMember(prefix: string, lo: nat, hi: int, x: string)
    requires x in Ascending(prefix, lo, hi)
    ensures exists n: nat :: lo <= n <= hi && x == prefix + NatToStr(n)
  {
    var r := Ascending(prefix, lo, hi);
    var k :| 0 <= k < |r| && r[k] == x;
    var n: nat := lo + k;
    assert lo <= n <= hi && x == prefix + NatToStr(n);
  }

  /** Every number between the bounds gives an address of the range. */
  lemma AscendingHas(prefix: string, lo: nat, hi: int, n: nat)
    requires lo <= n <= hi
    ensures prefix + NatToStr(n) in Ascending(prefix, lo, hi)
  {
    var r := Ascending(prefix, lo, hi);
    var k := n - lo;
    assert r[k] == prefix + NatToStr(lo + k);
  }

  /** What `range_to_list(ip)` returns or raises. */
  function RangeExpansion(ip: string): Result<seq<string>, RangeError> {
    match SplitRange(ip)
    case Err(e) => Err(e)
    case Ok(it) => Ok(Ascending(it.prefix, it.lo, it.hi))
  }

  /** `range_to_list`: builds the address list of one range item with a loop. */
  method RangeToList(ipRange: string) returns (r: Result<seq<string>, RangeError>)
    ensures r == RangeExpansion(ipRange)
  {
    var parts := SplitRange(ipRange);
    if parts.Err? {
      return Err(parts.error);
    }
    var it := parts.value;
    var ips: seq<string> := [];
    var i: int := it.lo;
    while i <= it.hi
      invariant it.lo <= i <= if it.lo <= it.hi then it.hi + 1 else it.lo
      invariant ips == Ascending(it.prefix, it.lo, i - 1)
      decreases it.hi - i
    {
      ips := ips + [it.prefix + NatToStr(i)];
      i := i + 1;
    }
    return Ok(ips);
  }

  /** The addresses one comma-separated item stands for, after stripping it. */
  function ItemExpansion(item: string): Result<seq<string>, RangeError> {
    var ip := Strip(item);
    if IsRange(ip) then RangeExpansion(ip) else Ok([ip])
  }

  /** How one item is turned into addresses. */
  type Expander = string -> Result<seq<string>, RangeError>

  /** The expansions of the items, concatenated in order; the first failing item's error otherwise. */
  function ExpandItems(items: seq<string>, expand: Expander): Result<seq<string>, RangeError>
    decreases |items|
  {
    if |items| == 0 then Ok([])
    else
      match ExpandItems(items[..|items| - 1], expand)
      case Err(e) => Err(e)
      case Ok(prev) =>
        match expand(items[|items| - 1])
        case Err(e) => Err(e)
        case Ok(ips) => Ok(prev + ips)
  }

  /** What `IpRanges(ranges).parse()` returns or raises. */
  function Expansion(ranges: string): Result<seq<string>, RangeError> {
    ExpandItems(Split(ranges, ','), ItemExpansion)
  }

  /** Once a prefix of the items fails, the whole list fails with the same error. */
  lemma {:induction false} ExpandItemsErrorSticks(items: seq<string>, n: nat, expand: Expander)
    requires n <= |items|
    requires ExpandItems(items[..n], expand).Err?
    ensures ExpandItems(items, expand) == ExpandItems(items[..n], expand)
    decreases |items| - n
  {
    if n < |items| {
      assert items[..n + 1][..n] == items[..n];
      ExpandItemsErrorSticks(items, n + 1, expand);
    } else {
      assert items[..n] == items;
    }
  }

  /** One more item extends the expansion of the items before it, or fails with its own error. */
  lemma ExpandItemsStep(items: seq<string>, k: nat, expand: Expander)
    requires k < |items|
    requires ExpandItems(items[..k], expand).Ok?
    ensures ExpandItems(items[..k + 1], expand) ==
      match expand(items[k])
      case Err(e) => Err(e)
      case Ok(ips) => Ok(ExpandItems(items[..k], expand).value + ips)
  {
    assert items[..k + 1][..k] == items[..k];
  }

  /** The body of the loop in `parse`: a stripped range item is expanded, any other item kept as one address. */
  method ExpandItem(item: string) returns (r: Result<seq<string>, RangeError>)
    ensures r == ItemExpansion(item)
  {
    var ip := Strip(item);
    if IsRange(ip) {
      r := RangeToList(ip);
    } else {
      r := Ok([ip]);
    }
  }

  /** `IpRanges.parse`: extends or appends the expansion of every item in turn. */
  method Parse(ranges: string) returns (r: Result<seq<string>, RangeError>)
    ensures r == Expansion(ranges)
  {
    var result: seq<string> := [];
    var items := Split(ranges, ',');
    var k := 0;
    while k < |items|
      invariant 0 <= k <= |items|
      invariant ExpandItems(items[..k], ItemExpansion) == Ok(result)
    {
      var ips := ExpandItem(items[k]);
      ExpandItemsStep(items, k, ItemExpansion);
      if ips.Err? {
        ExpandItemsErrorSticks(items, k + 1, ItemExpansion);
        return Err(ips.error);
      }
      result := result + ips.value;
      k := k + 1;
    }
    assert items[..k] == items;
    return Ok(result);
  }

  /** The expansion of two lists of items written one after the other is the two expansions in order. */
  lemma {:induction false} ExpandItemsAppend(a: seq<string>, b: seq<string>, expand: Expander)
    requires ExpandItems(a, expand).Ok? && ExpandItems(b, expand).Ok?
    ensures ExpandItems(a + b, expand) == Ok(ExpandItems(a, expand).value + ExpandItems(b, expand).value)
    decreases |b|
  {
    if b == [] {
      assert a + b == a;
      assert ExpandItems(a, expand).value + [] == ExpandItems(a, expand).value;
    } else {
      var b', last := b[..|b| - 1], b[|b| - 1];
      var ab := a + b;
      assert ab[..|ab| - 1] == a + b';
      assert ab[|ab| - 1] == last;
      ExpandItemsAppend(a, b', expand);
      var ra, rb' := ExpandItems(a, expand).value, ExpandItems(b', expand).value;
      var rl := expand(last);
      assert ExpandItems(b, expand) == Ok(rb' + rl.value);
      assert ExpandItems(ab, expand) == Ok((ra + rb') + rl.value);
      assert (ra + rb') + rl.value == ra + (rb' + rl.value);
    }
  }

  /** The list expands exactly when every item does. */
  lemma {:induction false} ExpandItemsOk(items: seq<string>, expand: Expander)
    ensures ExpandItems(items, expand).Ok? <==> forall k :: 0 <= k < |items| ==> expand(items[k]).Ok?
    decreases |items|
  {
    if items != [] {
      var init := items[..|items| - 1];
      ExpandItemsOk(init, expand);
      assert forall k :: 0 <= k < |init| ==> init[k] == items[k];
    }
  }

  /** A failing list fails with the error of its first failing item; nothing is skipped. */
  lemma ExpandItemsFirstError(items: seq<string>, k: nat, expand: Expander)
    requires k < |items|
    requires expand(items[k]).Err?
    requires forall j :: 0 <= j < k ==> expand(items[j]).Ok?
    ensures ExpandItems(items, expand) == Err(expand(items[k]).error)
  {
    var init := items[..k];
    assert forall j :: 0 <= j < |init| ==> init[j] == items[j];
    ExpandItemsOk(init, expand);
    assert items[..k + 1][..k] == init;
    assert items[..k + 1][k] == items[k];
    ExpandItemsErrorSticks(items, k + 1, expand);
  }

  /** An address is produced exactly when some item produces it. */
  lemma {:induction false} ExpandItemsMember(items: seq<string>, x: string, expand: Expander)
    requires ExpandItems(items, expand).Ok?
    ensures forall k :: 0 <= k < |items| ==> expand(items[k]).Ok?
    ensures x in ExpandItems(items, expand).value <==>
      exists k :: 0 <= k < |items| && x in expand(items[k]).value
    decreases |items|
  {
    ExpandItemsOk(items, expand);
    if items != [] {
      var init := items[..|items| - 1];
      ExpandItemsMember(init, x, expand);
      assert forall k :: 0 <= k < |init| ==> init[k] == items[k];
    }
  }

  /** The stripped items, one for one. */
  function StrippedAll(items: seq<string>): (r: seq<string>)
    ensures |r| == |items|
    ensures forall k :: 0 <= k < |items| ==> r[k] == Strip(items[k])
  {
    seq(|items|, k requires 0 <= k < |items| => Strip(items[k]))
  }

  /** Items that are not ranges pass through stripped, one address each, in order. */
  lemma {:induction false} LiteralItems(items: seq<string>)
    requires forall k :: 0 <= k < |items| ==> !IsRange(Strip(items[k]))
    ensures ExpandItems(items, ItemExpansion) == Ok(StrippedAll(items))
    decreases |items|
  {
    if items != [] {
      var init := items[..|items| - 1];
      LiteralItems(init);
      assert StrippedAll(items) == StrippedAll(init) + [Strip(items[|items| - 1])];
    }
  }

  /**
   * An expression without range items yields one address per comma-separated
   * item, so never an empty list.
   */
  lemma LiteralExpansion(ranges: string)
    requires forall k :: 0 <= k < |Split(ranges, ',')| ==> !IsRange(Strip(Split(ranges, ',')[k]))
    ensures Expansion(ranges).Ok?
    ensures |Expansion(ranges).value| == Count(ranges, ',') + 1
    ensures Expansion(ranges).value == StrippedAll(Split(ranges, ','))
  {
    LiteralItems(Split(ranges, ','));
    SplitCount(ranges, ',');
  }

  lemma DigitsAreNotSpaceOrComma(s: string)
    requires AllDigits(s)
    ensures ',' !in s
    ensures forall k :: 0 <= k < |s| ==> !IsSpace(s[k])
  {
  }

  /** An address made from a stripped range item is stripped and free of `:` and `,`. */
  lemma RangeAddressIsLiteral(ip: string, x: string)
    requires Strip(ip) == ip && ',' !in ip
    requires RangeExpansion(ip).Ok?
    requires x in RangeExpansion(ip).value
    ensures ':' !in x && ',' !in x && Strip(x) == x
  {
    SplitRangeShape(ip);
    var it := SplitRange(ip).value;
    var prefix := it.prefix;
    AscendingMember(prefix, it.lo, it.hi, x);
    var n: nat :| it.lo <= n <= it.hi && x == prefix + NatToStr(n);
    var digits := NatToStr(n);
    NatToStrCanonical(n);
    StripShape(ip);
    DigitsHaveNoMarks(digits);
    DigitsAreNotSpaceOrComma(digits);
    assert forall c :: c in prefix ==> c in ip;
    ConcatEnds(prefix, digits);
    if prefix != [] {
      assert prefix[0] == ip[0];
    }
    assert [] + x + [] == x;
    StripOf([], x, []);
  }

  lemma ConcatEnds(p: string, d: string)
    requires d != []
    ensures (p + d)[|p + d| - 1] == d[|d| - 1]
    ensures (p + d)[0] == if p == [] then d[0] else p[0]
    ensures forall c :: c in p + d ==> c in p || c in d
  {
  }

  /** Every produced address is a literal item in its own right: stripped, free of `:` and of `,`. */
  lemma AddressIsLiteral(item: string, x: string)
    requires ItemExpansion(item).Ok?
    requires x in ItemExpansion(item).value
    requires ',' !in item
    ensures ':' !in x && ',' !in x && Strip(x) == x
  {
    var ip := Strip(item);
    StripIdempotent(item);
    StripShape(item);
    assert forall c :: c in ip ==> c in item;
    if IsRange(ip) {
      RangeAddressIsLiteral(ip, x);
    }
  }

  /** Every address of an expansion is stripped and free of `:` and `,`. */
  lemma AddressesAreLiteral(ranges: string)
    requires Expansion(ranges).Ok?
    ensures forall x :: x in Expansion(ranges).value ==> ':' !in x && ',' !in x && Strip(x) == x
  {
    var items := Split(ranges, ',');
    SplitShape(ranges, ',');
    forall x | x in Expansion(ranges).value
      ensures ':' !in x && ',' !in x && Strip(x) == x
    {
      ExpandItemsMember(items, x, ItemExpansion);
      var k :| 0 <= k < |items| && x in ItemExpansion(items[k]).value;
      AddressIsLiteral(items[k], x);
    }
  }

  /**
   * Expansion is idempotent: joining a non-empty expansion with commas and
   * expanding again gives the same addresses.
   */
  lemma ExpansionIdempotent(ranges: string)
    requires Expansion(ranges).Ok?
    requires |Expansion(ranges).value| >= 1
    ensures Expansion(Join(Expansion(ranges).value, ',')) == Expansion(ranges)
  {
    var ips := Expansion(ranges).value;
    AddressesAreLiteral(ranges);
    SplitJoin(ips, ',');
    LiteralItems(ips);
    assert StrippedAll(ips) == ips;
  }

  /** A text without `:` and without surrounding white space is one literal address. */
  lemma LiteralItem(x: string)
    requires ':' !in x
    requires x != [] ==> !IsSpace(x[0]) && !IsSpace(x[|x| - 1])
    ensures ItemExpansion(x) == Ok([x])
  {
    assert [] + x + [] == x;
    StripOf([], x, []);
  }

  /** The text `prefix[f:t]` is a stripped item with a colon. */
  lemma RangeItemText(prefix: string, f: string, t: string, item: string)
    requires prefix != [] ==> !IsSpace(prefix[0])
    requires item == prefix + "[" + f + ":" + t + "]"
    ensures Strip(item) == item && IsRange(item)
  {
    ConcatEnds(prefix, "[");
    assert item[0] == (prefix + "[")[0];
    assert item[|item| - 1] == ']';
    assert item[|prefix| + 1 + |f|] == ':';
    StripUnpadded(item);
  }

  /** The text `prefix[f:t]`, with decimal bounds `f` and `t`, expands to the addresses from `f` to `t`. */
  lemma RangeItemExpansion(prefix: string, f: string, t: string, lo: nat, hi: nat, item: string)
    requires '[' !in prefix && ':' !in prefix && ']' !in prefix
    requires prefix != [] ==> !IsSpace(prefix[0])
    requires ParseNat(f) == Some(lo) && ParseNat(t) == Some(hi)
    requires item == prefix + "[" + f + ":" + t + "]"
    ensures ItemExpansion(item) == Ok(Ascending(prefix, lo, hi))
  {
    var it := RangeItem(prefix, f, t, "", lo, hi);
    assert ItemText(it) == item;
    SplitRangeOfText(it);
    RangeItemText(prefix, f, t, item);
  }

  lemma ExpandOne(a: string, expand: Expander)
    ensures ExpandItems([a], expand) == expand(a)
  {
    assert [a][..0] == [];
    if expand(a).Ok? {
      assert [] + expand(a).value == expand(a).value;
    }
  }

  lemma ExpandTwo(a: string, b: string, expand: Expander)
    requires expand(a).Ok? && expand(b).Ok?
    ensures ExpandItems([a, b], expand) == Ok(expand(a).value + expand(b).value)
  {
    ExpandOne(a, expand);
    assert [a, b][..1] == [a];
  }

  /** Expanding a comma-joined list of items is expanding the items. */
  lemma ExpansionOfJoin(items: seq<string>)
    requires |items| >= 1
    requires forall k :: 0 <= k < |items| ==> ',' !in items[k]
    ensures Expansion(Join(items, ',')) == ExpandItems(items, ItemExpansion)
  {
    SplitJoin(items, ',');
  }

  /** Expanding a single item without a comma. */
  lemma ExpansionOfOne(item: string)
    requires ',' !in item
    ensures Expansion(item) == ItemExpansion(item)
  {
    ExpandOne(item, ItemExpansion);
    ExpansionOfJoin([item]);
    assert Join([item], ',') == item;
  }

  /** Expanding two items joined by a comma, when both expand. */
  lemma ExpansionOfTwo(a: string, b: string, s: string, x: seq<string>, y: seq<string>)
    requires ',' !in a && ',' !in b
    requires ItemExpansion(a) == Ok(x) && ItemExpansion(b) == Ok(y)
    requires s == a + "," + b
    ensures Expansion(s) == Ok(x + y)
  {
    ExpandTwo(a, b, ItemExpansion);
    ExpansionOfJoin([a, b]);
    assert Join([a, b], ',') == a + "," + b;
  }

  /** Two items joined by a comma, the second failing: the whole expression fails with its error. */
  lemma ExpansionOfTwoSecondFails(a: string, b: string, s: string)
    requires ',' !in a && ',' !in b
    requires ItemExpansion(a).Ok? && ItemExpansion(b).Err?
    requires s == a + "," + b
    ensures Expansion(s) == Err(ItemExpansion(b).error)
  {
    ExpandItemsFirstError([a, b], 1, ItemExpansion);
    ExpansionOfJoin([a, b]);
    assert Join([a, b], ',') == a + "," + b;
  }

  /** Two items sharing the prefix `p`, both expanding. */
  lemma ExpansionOfPair(p: string, l1: string, c1: string, l2: string, x: seq<string>, y: seq<string>)
    requires c1 == l1 + ","
    requires ',' !in p + l1 && ',' !in p + l2
    requires ItemExpansion(p + l1) == Ok(x) && ItemExpansion(p + l2) == Ok(y)
    ensures Expansion(p + c1 + p + l2) == Ok(x + y)
  {
    PairText(p, l1, c1, l2);
    ExpansionOfTwo(p + l1, p + l2, p + c1 + p + l2, x, y);
  }

  /** Two items sharing the prefix `p`, the second failing. */
  lemma ExpansionOfPairSecondFails(p: string, l1: string, c1: string, l2: string)
    requires c1 == l1 + ","
    requires ',' !in p + l1 && ',' !in p + l2
    requires ItemExpansion(p + l1).Ok? && ItemExpansion(p + l2).Err?
    ensures Expansion(p + c1 + p + l2) == Err(ItemExpansion(p + l2).error)
  {
    PairText(p, l1, c1, l2);
    ExpansionOfTwoSecondFails(p + l1, p + l2, p + c1 + p + l2);
  }

  /** A text without surrounding white space is its own strip. */
  lemma StripUnpadded(x: string)
    requires x != [] ==> !IsSpace(x[0]) && !IsSpace(x[|x| - 1])
    ensures Strip(x) == x
  {
    assert [] + x + [] == x;
    StripOf([], x, []);
  }

  /*
   * Facts about literal texts and sequence displays that the examples below
   * use. Each is a lemma of its own so that an example receives it exactly as
   * stated, instead of re-deriving it by sequence extensionality in the same
   * proof that unfolds the expansion functions; that keeps the examples small.
   */

  /** The text `p + l1 + "," + p + l2`, with the comma written at the end of `c1`. */
  lemma PairText(p: string, l1: string, c1: string, l2: string)
    requires c1 == l1 + ","
    ensures p + c1 + p + l2 == (p + l1) + "," + (p + l2)
  {
  }

  lemma FiveComma()
    ensures "5," == "5" + ","
  {
  }

  lemma TwoDisplays(a: string, b: string)
    ensures [a] + [b] == [a, b]
  {
  }

  lemma NatToStrSmall()
    ensures NatToStr(5) == "5" && NatToStr(6) == "6"
    ensures NatToStr(20) == "20" && NatToStr(21) == "21" && NatToStr(22) == "22" && NatToStr(23) == "23"
  {
  }

  lemma SmallBounds()
    ensures ParseNat("5") == Some(5) && ParseNat("6") == Some(6)
    ensures ParseNat("20") == Some(20) && ParseNat("23") == Some(23)
  {
  }

  lemma FiveSixText(p: string)
    ensures p + "[" + "5" + ":" + "6" + "]" == p + "[5:6]"
  {
  }

  lemma TwentyToTwentyThreeText(p: string)
    ensures p + "[" + "20" + ":" + "23" + "]" == p + "[20:23]"
  {
  }

  lemma FiveSixComma()
    ensures "[5:6]," == "[5:6]" + ","
  {
  }

  lemma ThreeDisplays(a: string, b: string, c: string)
    ensures [a, b] + [c] == [a, b, c]
  {
  }

  lemma SixDisplays(a: string, b: string, c: string, d: string, e: string, f: string)
    ensures [a, b] + [c, d, e, f] == [a, b, c, d, e, f]
  {
  }

  lemma OneComma()
    ensures "1," == "1" + ","
  {
  }

  lemma SixFiveText(p: string)
    ensures p + "[" + "6" + ":" + "5" + "]" == p + "[6:5]"
  {
  }

  /** The empty expression is one empty literal item: the result is `[""]`, never `[]`. */
  lemma EmptyExpressionExample()
    ensures Expansion("") == Ok([""])
  {
    LiteralItem("");
    ExpansionOfOne("");
  }

  /**
   * The address part in front of a bracket, such as `192.168.1.`: no bracket,
   * colon or comma, and no leading white space.
   */
  predicate AddressPrefix(p: string) {
    '[' !in p && ':' !in p && ']' !in p && ',' !in p && (p != [] ==> !IsSpace(p[0]))
  }

  /** A prefix followed by digits is one literal address. */
  lemma PrefixedLiteral(p: string, d: string)
    requires AddressPrefix(p)
    requires d != [] && AllDigits(d)
    ensures ',' !in p + d
    ensures ItemExpansion(p + d) == Ok([p + d])
  {
    DigitsHaveNoMarks(d);
    DigitsAreNotSpaceOrComma(d);
    ConcatEnds(p, d);
    LiteralItem(p + d);
  }

  /** First documented example, `192.168.1.5` for the prefix `192.168.1.`: a single address. */
  lemma SingleAddressExample(p: string)
    requires AddressPrefix(p)
    ensures Expansion(p + "5") == Ok([p + "5"])
  {
    PrefixedLiteral(p, "5");
    ExpansionOfOne(p + "5");
  }

  /** Second documented example, `192.168.1.5,192.168.1.6` for the prefix `192.168.1.`: two addresses. */
  lemma TwoAddressesExample(p: string)
    requires AddressPrefix(p)
    ensures Expansion(p + "5," + p + "6") == Ok([p + "5", p + "6"])
  {
    PrefixedLiteral(p, "5");
    PrefixedLiteral(p, "6");
    FiveComma();
    ExpansionOfPair(p, "5", "5,", "6", [p + "5"], [p + "6"]);
    TwoDisplays(p + "5", p + "6");
  }

  lemma AscendingTwo(p: string, lo: nat)
    ensures Ascending(p, lo, lo + 1) == [p + NatToStr(lo), p + NatToStr(lo + 1)]
  {
    var r := Ascending(p, lo, lo + 1);
    assert r == [r[0], r[1]];
  }

  lemma AscendingFour(p: string, lo: nat)
    ensures Ascending(p, lo, lo + 3) == [p + NatToStr(lo), p + NatToStr(lo + 1), p + NatToStr(lo + 2), p + NatToStr(lo + 3)]
  {
    var r := Ascending(p, lo, lo + 3);
    assert r == [r[0], r[1], r[2], r[3]];
  }

  lemma AscendingFiveSix(p: string)
    ensures Ascending(p, 5, 6) == [p + "5", p + "6"]
  {
    AscendingTwo(p, 5);
    NatToStrSmall();
  }

  lemma AscendingTwentyToTwentyThree(p: string)
    ensures Ascending(p, 20, 23) == [p + "20", p + "21", p + "22", p + "23"]
  {
    AscendingFour(p, 20);
    NatToStrSmall();
  }

  /** A prefix followed by a comma-free text has no comma. */
  lemma PrefixedNoComma(p: string, t: string)
    requires AddressPrefix(p) && t != [] && ',' !in t
    ensures ',' !in p + t
  {
    ConcatEnds(p, t);
  }

  /** `p[5:6]` is the two addresses `p5` and `p6`. */
  lemma RangeFiveSix(p: string)
    requires AddressPrefix(p)
    ensures ',' !in p + "[5:6]"
    ensures ItemExpansion(p + "[5:6]") == Ok([p + "5", p + "6"])
  {
    SmallBounds();
    FiveSixText(p);
    RangeItemExpansion(p, "5", "6", 5, 6, p + "[5:6]");
    AscendingFiveSix(p);
    PrefixedNoComma(p, "[5:6]");
  }

  /** `p[20:23]` is the four addresses `p20` to `p23`, in ascending order. */
  lemma RangeTwentyToTwentyThree(p: string)
    requires AddressPrefix(p)
    ensures ',' !in p + "[20:23]"
    ensures ItemExpansion(p + "[20:23]") == Ok([p + "20", p + "21", p + "22", p + "23"])
  {
    SmallBounds();
    TwentyToTwentyThreeText(p);
    RangeItemExpansion(p, "20", "23", 20, 23, p + "[20:23]");
    AscendingTwentyToTwentyThree(p);
    PrefixedNoComma(p, "[20:23]");
  }

  /**
   * Third documented example, `192.168.1.[5:6],192.168.1.10` for the prefix
   * `192.168.1.`: a range, then an address, in the order written.
   */
  lemma RangeThenAddressExample(p: string)
    requires AddressPrefix(p)
    ensures Expansion(p + "[5:6]," + p + "10") == Ok([p + "5", p + "6", p + "10"])
  {
    RangeFiveSix(p);
    PrefixedLiteral(p, "10");
    FiveSixComma();
    ExpansionOfPair(p, "[5:6]", "[5:6],", "10", [p + "5", p + "6"], [p + "10"]);
    ThreeDisplays(p + "5", p + "6", p + "10");
  }

  /** Last documented example, `192.168.1.[5:6],192.168.1.[20:23]` for the prefix `192.168.1.`. */
  lemma TwoRangesExample(p: string)
    requires AddressPrefix(p)
    ensures Expansion(p + "[5:6]," + p + "[20:23]") ==
      Ok([p + "5", p + "6", p + "20", p + "21", p + "22", p + "23"])
  {
    RangeFiveSix(p);
    RangeTwentyToTwentyThree(p);
    FiveSixComma();
    ExpansionOfPair(p, "[5:6]", "[5:6],", "[20:23]",
      [p + "5", p + "6"], [p + "20", p + "21", p + "22", p + "23"]);
    SixDisplays(p + "5", p + "6", p + "20", p + "21", p + "22", p + "23");
  }

  /** `prefix[5:` has no closing bracket. */
  lemma MissingBracketSplit(p: string)
    requires AddressPrefix(p)
    ensures SplitRange(p + "[5:") == Err(MissingCloseBracket(p + "[5:"))
  {
    var item := p + "[5:";
    assert item[..|p|] == p;
    assert item[..|p| + 2] == p + "[5";
    IndexOfAt(item, '[', |p|);
    IndexOfAt(item, ':', |p| + 2);
    IndexOfShape(item, ']');
  }

  /** A range item without its closing bracket is an error, `192.168.1.[5:` for instance. */
  lemma MissingBracketExample(p: string)
    requires AddressPrefix(p)
    ensures Expansion(p + "[5:") == Err(MissingCloseBracket(p + "[5:"))
  {
    var item := p + "[5:";
    MissingBracketSplit(p);
    ConcatEnds(p, "[5:");
    StripUnpadded(item);
    ExpansionOfOne(item);
  }

  /** `prefix[a:3]` has a bound that is not a number. */
  lemma BadBoundSplit(p: string)
    requires AddressPrefix(p)
    ensures SplitRange(p + "[a:3]") == Err(BadBound(p + "[a:3]", "a"))
  {
    var bad := p + "[a:3]";
    assert bad[..|p|] == p;
    assert bad[..|p| + 2] == p + "[a";
    assert bad[..|p| + 4] == p + "[a:3";
    IndexOfAt(bad, '[', |p|);
    IndexOfAt(bad, ':', |p| + 2);
    IndexOfAt(bad, ']', |p| + 4);
    assert Slice(bad, |p| + 1, |p| + 2) == "a";
  }

  /** `p[a:3]` fails on its lower bound. */
  lemma BadBoundItem(p: string)
    requires AddressPrefix(p)
    ensures ',' !in p + "[a:3]"
    ensures ItemExpansion(p + "[a:3]") == Err(BadBound(p + "[a:3]", "a"))
  {
    BadBoundSplit(p);
    ConcatEnds(p, "[a:3]");
    StripUnpadded(p + "[a:3]");
  }

  /** A bound that is not a number is an error, even after a good item: nothing is skipped. */
  lemma BadBoundExample(p: string)
    requires AddressPrefix(p)
    ensures Expansion(p + "1," + p + "[a:3]") == Err(BadBound(p + "[a:3]", "a"))
  {
    BadBoundItem(p);
    PrefixedLiteral(p, "1");
    OneComma();
    ExpansionOfPairSecondFails(p, "1", "1,", "[a:3]");
  }

  /** `p[6:5]` names nothing. */
  lemma RangeSixFive(p: string)
    requires AddressPrefix(p)
    ensures ItemExpansion(p + "[6:5]") == Ok([])
  {
    SmallBounds();
    SixFiveText(p);
    RangeItemExpansion(p, "6", "5", 6, 5, p + "[6:5]");
  }

  /** A range whose lower bound exceeds its upper bound, `10.0.0.[6:5]` say, names no address at all. */
  lemma InvertedRangeExample(p: string)
    requires AddressPrefix(p)
    ensures Expansion(p + "[6:5]") == Ok([])
  {
    RangeSixFive(p);
    ExpansionOfOne(p + "[6:5]");
  }

  /** `192.168.1.` and `10.0.0.` are address prefixes, so the examples above apply to them. */
  lemma DocumentedPrefixes()
    ensures AddressPrefix("192.168.1.") && AddressPrefix("10.0.0.")
  {
  }
}
