/** Items marked with what became of them. */
module Selection {

  /** The items of a given fate, in order. */
  function Select<T, F(==)>(items: seq<T>, fates: seq<F>, fate: F): seq<T>
    requires |items| == |fates|
  {
    if items == [] then []
    else
      var n := |items| - 1;
      Select(items[..n], fates[..n], fate) + if fates[n] == fate then [items[n]] else []
  }

  lemma {:induction false} SelectPush<T, F>(items: seq<T>, fates: seq<F>, fate: F, item: T, f: F)
    requires |items| == |fates|
    ensures Select(items + [item], fates + [f], fate)
         == Select(items, fates, fate) + if f == fate then [item] else []
  {
    assert (items + [item])[..|items|] == items;
    assert (fates + [f])[..|fates|] == fates;
  }

  lemma {:induction false} SelectLast<T, F>(items: seq<T>, fates: seq<F>, fate: F)
    requires |items| == |fates| > 0
    ensures var n := |items| - 1;
            var before := Select(items[..n], fates[..n], fate);
            Select(items, fates, fate) == if fates[n] == fate then before + [items[n]] else before
  {
  }

  lemma {:induction false} SelectNone<T, F>(items: seq<T>, fates: seq<F>, fate: F)
    requires |items| == |fates|
    ensures Select(items, fates, fate) != [] <==> fate in fates
  {
    if items != [] {
      var n := |items| - 1;
      SelectNone(items[..n], fates[..n], fate);
      assert fates == fates[..n] + [fates[n]];
    }
  }
}
