/**
 The pure helpers of the browser client: HTML escaping of product text, the
 search-box filter over the fetched product list, and the two integer
 statistics shown above the grid.
 */
module Client {
  import opened Strings
  import opened Store

  // ----------------------------------------------------------------------
  // escapeHtml

  /** The five characters `escapeHtml` replaces. */
  predicate IsSpecial(c: char) {
    c == '&' || c == '<' || c == '>' || c == '"' || c == '\''
  }

  /** The replacement table of `escapeHtml`: exactly the five special
      characters are replaced, and no replacement contains markup. */
  function EscapeChar(c: char): (r: string)
    ensures IsSpecial(c) <==> r != [c]
    ensures forall i :: 0 <= i < |r| ==> r[i] != '<' && r[i] != '>' && r[i] != '"' && r[i] != '\''
  {
    match c
    case '&' => "&amp;"
    case '<' => "&lt;"
    case '>' => "&gt;"
    case '"' => "&quot;"
    case '\'' => "&#039;"
    case _ => [c]
  }

  /** `text.replace(/[&<>"']/g, m => map[m])` */
  function EscapeHtml(s: string): (r: string)
    ensures |r| >= |s|
    ensures forall i :: 0 <= i < |r| ==> r[i] != '<' && r[i] != '>' && r[i] != '"' && r[i] != '\''
    ensures (forall i :: 0 <= i < |s| ==> !IsSpecial(s[i])) ==> r == s
    decreases |s|
  {
    if |s| == 0 then
      ""
    else
      assert forall i :: 0 <= i < |s| - 1 ==> s[1..][i] == s[i + 1];
      EscapeChar(s[0]) + EscapeHtml(s[1..])
  }

  /** Escaping works character by character, so it distributes over concatenation. */
  lemma {:induction false} EscapeHtmlConcat(a: string, b: string)
    ensures EscapeHtml(a + b) == EscapeHtml(a) + EscapeHtml(b)
    decreases |a|
  {
    if |a| == 0 {
      assert a + b == b;
    } else {
      assert (a + b)[1..] == a[1..] + b;
      EscapeHtmlConcat(a[1..], b);
    }
  }

  /** Decodes the five entities `escapeHtml` produces; every other character
      is copied. */
  function Unescape(s: string): string
    decreases |s|
  {
    if |s| == 0 then ""
    else if StartsWith(s, "&amp;") then "&" + Unescape(s[5..])
    else if StartsWith(s, "&lt;") then "<" + Unescape(s[4..])
    else if StartsWith(s, "&gt;") then ">" + Unescape(s[4..])
    else if StartsWith(s, "&quot;") then "\"" + Unescape(s[6..])
    else if StartsWith(s, "&#039;") then "'" + Unescape(s[6..])
    else [s[0]] + Unescape(s[1..])
  }

  lemma DiffersAt(s: string, prefix: string, k: nat)
    requires k < |s| && k < |prefix| && s[k] != prefix[k]
    ensures !StartsWith(s, prefix)
  {
  }

  /** Decoding one escaped character in front of any text. */
  lemma UnescapeEscapeChar(c: char, rest: string)
    ensures Unescape(EscapeChar(c) + rest) == [c] + Unescape(rest)
  {
    var e := EscapeChar(c) + rest;
    if c == '&' {
      assert e[..5] == "&amp;" && e[5..] == rest;
    } else if c == '<' {
      DiffersAt(e, "&amp;", 1);
      assert e[..4] == "&lt;" && e[4..] == rest;
    } else if c == '>' {
      DiffersAt(e, "&amp;", 1);
      DiffersAt(e, "&lt;", 1);
      assert e[..4] == "&gt;" && e[4..] == rest;
    } else if c == '"' {
      DiffersAt(e, "&amp;", 1);
      DiffersAt(e, "&lt;", 1);
      DiffersAt(e, "&gt;", 1);
      assert e[..6] == "&quot;" && e[6..] == rest;
    } else if c == '\'' {
      DiffersAt(e, "&amp;", 1);
      DiffersAt(e, "&lt;", 1);
      DiffersAt(e, "&gt;", 1);
      DiffersAt(e, "&quot;", 1);
      assert e[..6] == "&#039;" && e[6..] == rest;
    } else {
      assert e[0] == c && e[1..] == rest;
      DiffersAt(e, "&amp;", 0);
      DiffersAt(e, "&lt;", 0);
      DiffersAt(e, "&gt;", 0);
      DiffersAt(e, "&quot;", 0);
      DiffersAt(e, "&#039;", 0);
    }
  }

  /** Round trip: decoding the escaped text gives the text back. */
  lemma {:induction false} UnescapeEscapeHtml(s: string)
    ensures Unescape(EscapeHtml(s)) == s
    decreases |s|
  {
    if |s| > 0 {
      UnescapeEscapeChar(s[0], EscapeHtml(s[1..]));
      UnescapeEscapeHtml(s[1..]);
      assert s == [s[0]] + s[1..];
    }
  }

  /** Different texts never escape to the same HTML. */
  lemma EscapeHtmlInjective(a: string, b: string)
    requires EscapeHtml(a) == EscapeHtml(b)
    ensures a == b
  {
    UnescapeEscapeHtml(a);
    UnescapeEscapeHtml(b);
  }

  /** Escaping is not idempotent: an already escaped `&` is escaped again. */
  lemma EscapeHtmlNotIdempotent()
    ensures EscapeHtml("&") == "&amp;"
    ensures EscapeHtml(EscapeHtml("&")) == "&amp;amp;"
    ensures EscapeHtml(EscapeHtml("&")) != EscapeHtml("&")
  {
    assert EscapeHtml("&") == EscapeChar('&') + EscapeHtml("");
    EscapeHtmlConcat("&", "amp;");
    assert "&amp;" == "&" + "amp;";
    assert EscapeHtml("amp;") == "amp;";
  }

  // ----------------------------------------------------------------------
  // handleSearch

  /** The predicate passed to `products.filter`: the (lower-cased) term is
      in the lower-cased name, or in a non-empty description or category. */
  predicate Keep(p: Row, term: string) {
    || Includes(Lower(p.product.name), term)
    || (p.product.description != "" && Includes(Lower(p.product.description), term))
    || (p.product.category != "" && Includes(Lower(p.product.category), term))
  }

  /** `products.filter(product => Keep(product, term))` */
  function Filter(ps: seq<Row>, term: string): (r: seq<Row>)
    ensures |r| <= |ps|
    ensures forall p :: p in r <==> p in ps && Keep(p, term)
    ensures forall p :: multiset(r)[p] == if Keep(p, term) then multiset(ps)[p] else 0
    decreases |ps|
  {
    if |ps| == 0 then
      []
    else
      assert ps == [ps[0]] + ps[1..];
      (if Keep(ps[0], term) then [ps[0]] else []) + Filter(ps[1..], term)
  }

  /** `a` is `b` with some elements dropped, the rest in their order. */
  ghost predicate IsSubsequence<T>(a: seq<T>, b: seq<T>)
    decreases |b|
  {
    if |a| == 0 then true
    else if |b| == 0 then false
    else (a[0] == b[0] && IsSubsequence(a[1..], b[1..])) || IsSubsequence(a, b[1..])
  }

  lemma {:induction false} FilterIsSubsequence(ps: seq<Row>, term: string)
    ensures IsSubsequence(Filter(ps, term), ps)
    decreases |ps|
  {
    if |ps| > 0 {
      FilterIsSubsequence(ps[1..], term);
      var rest := Filter(ps[1..], term);
      if Keep(ps[0], term) {
        assert ([ps[0]] + rest)[1..] == rest;
      } else {
        assert [] + rest == rest;
      }
    }
  }

  /** The list `handleSearch` renders for the text typed in the search box. */
  function HandleSearch(products: seq<Row>, input: string): (r: seq<Row>)
    ensures input == "" ==> r == products
    ensures input != "" ==> forall p :: p in r <==> p in products && Keep(p, Lower(input))
  {
    var term := Lower(input);
    if term == "" then products else Filter(products, term)
  }

  /** A product is kept exactly when the term occurs in its lower-cased
      name, description or category; the truthiness guards on description
      and category change nothing. (The empty term, which `handleSearch`
      never passes to the filter, is in every name.) */
  lemma KeepIsSubstring(p: Row, term: string)
    ensures Keep(p, term) <==>
              || Substring(term, Lower(p.product.name))
              || Substring(term, Lower(p.product.description))
              || Substring(term, Lower(p.product.category))
  {
    IncludesIsSubstring(Lower(p.product.name), term);
    IncludesIsSubstring(Lower(p.product.description), term);
    IncludesIsSubstring(Lower(p.product.category), term);
  }

  /** The rendered list is always an order-preserving selection of the
      fetched list, with each kept product as often as it was fetched. */
  lemma HandleSearchSelects(products: seq<Row>, input: string)
    ensures IsSubsequence(HandleSearch(products, input), products)
    ensures input != "" ==>
              forall p :: multiset(HandleSearch(products, input))[p] ==
                          (if Keep(p, Lower(input)) then multiset(products)[p] else 0)
  {
    if Lower(input) == "" {
      SubsequenceReflexive(products);
    } else {
      FilterIsSubsequence(products, Lower(input));
    }
  }

  lemma {:induction false} SubsequenceReflexive<T>(s: seq<T>)
    ensures IsSubsequence(s, s)
    decreases |s|
  {
    if |s| > 0 {
      SubsequenceReflexive(s[1..]);
    }
  }

  // ----------------------------------------------------------------------
  // updateStats (integer parts)

  datatype Stats = Stats(totalProducts: nat, totalItems: int)

  /** Reference definition: the sum of all quantities. */
  function SumQuantities(ps: seq<Row>): int
    decreases |ps|
  {
    if |ps| == 0 then 0 else SumQuantities(ps[..|ps| - 1]) + ps[|ps| - 1].product.quantity
  }

  /** `ps.reduce((sum, p) => sum + p.quantity, acc)`: a left fold. */
  function ReduceQuantities(ps: seq<Row>, acc: int): int
    decreases |ps|
  {
    if |ps| == 0 then acc else ReduceQuantities(ps[1..], acc + ps[0].product.quantity)
  }

  lemma {:induction false} SumQuantitiesConcat(a: seq<Row>, b: seq<Row>)
    ensures SumQuantities(a + b) == SumQuantities(a) + SumQuantities(b)
    decreases |b|
  {
    if |b| == 0 {
      assert a + b == a;
    } else {
      assert (a + b)[..|a + b| - 1] == a + b[..|b| - 1];
      SumQuantitiesConcat(a, b[..|b| - 1]);
    }
  }

  lemma {:induction false} ReduceIsSum(ps: seq<Row>, acc: int)
    ensures ReduceQuantities(ps, acc) == acc + SumQuantities(ps)
    decreases |ps|
  {
    if |ps| > 0 {
      ReduceIsSum(ps[1..], acc + ps[0].product.quantity);
      assert ps == [ps[0]] + ps[1..];
      SumQuantitiesConcat([ps[0]], ps[1..]);
      assert SumQuantities([ps[0]]) == SumQuantities([]) + ps[0].product.quantity;
    }
  }

  /** The two integer statistics: how many products there are and how many
      items they hold in total. */
  function UpdateStats(products: seq<Row>): (s: Stats)
    ensures s.totalProducts == |products|
    ensures s.totalItems == SumQuantities(products)
  {
    ReduceIsSum(products, 0);
    Stats(|products|, ReduceQuantities(products, 0))
  }

  /** The statistics of the full listing count every stored row once. */
  lemma ListingStats(db: Db)
    requires Valid(db)
    ensures UpdateStats(List(db).payload.rows).totalProducts == |db.rows|
  {
  }
}
