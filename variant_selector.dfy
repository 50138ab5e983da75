/**
 * The colour and storage pickers: the options they offer and the variant a
 * change of colour or of storage resolves to.
 */
module VariantSelector {
  import opened Wrappers
  import opened Records
  import opened Sequences

  datatype Attribute = Color | Storage

  function Get(v: VariantWithPlans, a: Attribute): string
  {
    match a
    case Color => v.variant.color
    case Storage => v.variant.storage
  }

  function Other(a: Attribute): Attribute
  {
    match a
    case Color => Storage
    case Storage => Color
  }

  /** The values of attribute `a` of every variant, in list order, repeats included. */
  function Values(variants: seq<VariantWithPlans>, a: Attribute): (vs: seq<string>)
    ensures |vs| == |variants| && forall i :: 0 <= i < |variants| ==> vs[i] == Get(variants[i], a)
  {
    seq(|variants|, i requires 0 <= i < |variants| => Get(variants[i], a))
  }

  /** The two option lists the pickers show. */
  datatype Options = Options(colors: seq<string>, storages: seq<string>)

  /**
   * The options for a (nullable) variant list: nothing for a null or empty
   * list; otherwise each colour and each storage once, in first-occurrence order.
   */
  function OptionsFor(variants: Option<seq<VariantWithPlans>>): (r: Option<Options>)
    ensures r.None? <==> variants.None? || |variants.value| == 0
    ensures r.Some? ==> forall a :: a in r.value.colors <==> exists i :: 0 <= i < |variants.value| && variants.value[i].variant.color == a
    ensures r.Some? ==> forall a :: a in r.value.storages <==> exists i :: 0 <= i < |variants.value| && variants.value[i].variant.storage == a
    ensures r.Some? ==> Distinct(r.value.colors) && Distinct(r.value.storages)
    ensures r.Some? ==> InFirstOccurrenceOrder(r.value.colors, Values(variants.value, Color))
    ensures r.Some? ==> InFirstOccurrenceOrder(r.value.storages, Values(variants.value, Storage))
  {
    match variants
    case None => None
    case Some(vs) =>
      if |vs| == 0 then None
      else
        var colors := Values(vs, Color);
        var storages := Values(vs, Storage);
        assert forall a :: a in colors <==> exists i :: 0 <= i < |vs| && vs[i].variant.color == a;
        assert forall a :: a in storages <==> exists i :: 0 <= i < |vs| && vs[i].variant.storage == a;
        Some(Options(Dedup(colors), Dedup(storages)))
  }

  /**
   * The variant chosen when attribute `a` is set to `value` while `selected`
   * is shown: the first variant with that value and the selected variant's
   * other attribute, else the first variant with that value.
   */
  function Resolve(variants: seq<VariantWithPlans>, a: Attribute, value: string,
                   selected: Option<VariantWithPlans>): (r: Option<VariantWithPlans>)
    ensures r.Some? <==> exists i :: 0 <= i < |variants| && Get(variants[i], a) == value
    ensures r.Some? ==> r.value in variants && Get(r.value, a) == value
    ensures selected.Some? && (exists i :: 0 <= i < |variants| && Get(variants[i], a) == value
                                          && Get(variants[i], Other(a)) == Get(selected.value, Other(a)))
            ==> r.Some? && Get(r.value, Other(a)) == Get(selected.value, Other(a))
  {
    var exact := Find(variants, (v: VariantWithPlans) =>
      Get(v, a) == value && selected.Some? && Get(v, Other(a)) == Get(selected.value, Other(a)));
    if exact.Some? then exact
    else Find(variants, (v: VariantWithPlans) => Get(v, a) == value)
  }

  /** When a matching combination exists, the resolved variant is the first such combination. */
  lemma ResolveIsFirstExactMatch(variants: seq<VariantWithPlans>, a: Attribute, value: string,
                                 selected: VariantWithPlans, i: nat)
    requires i < |variants| && Get(variants[i], a) == value
    requires Get(variants[i], Other(a)) == Get(selected, Other(a))
    requires forall j :: 0 <= j < i ==> Get(variants[j], a) != value || Get(variants[j], Other(a)) != Get(selected, Other(a))
    ensures Resolve(variants, a, value, Some(selected)) == Some(variants[i])
  {
    var p := (v: VariantWithPlans) => Get(v, a) == value && Some(selected).Some? && Get(v, Other(a)) == Get(selected, Other(a));
    var k :| 0 <= k < |variants| && variants[k] == Resolve(variants, a, value, Some(selected)).value
             && p(variants[k]) && forall j :: 0 <= j < k ==> !p(variants[j]);
  }

  /** Without such a combination, the resolved variant is the first one with the chosen value. */
  lemma ResolveFallsBackToFirstMatch(variants: seq<VariantWithPlans>, a: Attribute, value: string,
                                     selected: Option<VariantWithPlans>, i: nat)
    requires i < |variants| && Get(variants[i], a) == value
    requires forall j :: 0 <= j < i ==> Get(variants[j], a) != value
    requires selected.None? || forall j :: 0 <= j < |variants| && Get(variants[j], a) == value ==>
               Get(variants[j], Other(a)) != Get(selected.value, Other(a))
    ensures Resolve(variants, a, value, selected) == Some(variants[i])
  {
    var p := (v: VariantWithPlans) => Get(v, a) == value;
    var k :| 0 <= k < |variants| && variants[k] == Resolve(variants, a, value, selected).value
             && p(variants[k]) && forall j :: 0 <= j < k ==> !p(variants[j]);
  }
}
