/** The colour map shared by all images of a collection: a JavaScript `Map` with its insertion order. */
module Palettes {
  import opened JsMaps

  /** Colours as hex text, each with its index. */
  type Palette = JsMap<nat>

  /** Insert a colour if it does not yet exist; its index is the current size. */
  function Insert(p: Palette, color: string): Palette {
    if color in p.values then p else p.Set(color, |p.keys|)
  }

  /** The palette array drawn with and the index map are inverse to each other; index 0 is "transparent". */
  ghost predicate Ordered(p: Palette) {
    && |p.keys| >= 1 && p.keys[0] == ""
    && (forall i :: 0 <= i < |p.keys| ==> p.keys[i] in p.values && p.values[p.keys[i]] == i)
    && (forall k :: k in p.values ==> p.values[k] < |p.keys| && p.keys[p.values[k]] == k)
  }

  function InsertAll(p: Palette, colors: seq<string>): Palette {
    if colors == [] then p else Insert(InsertAll(p, colors[..|colors| - 1]), colors[|colors| - 1])
  }

  lemma InsertAllAppend(p: Palette, colors: seq<string>, color: string)
    ensures InsertAll(p, colors + [color]) == Insert(InsertAll(p, colors), color)
  {
    assert (colors + [color])[..|colors|] == colors;
  }

  lemma InsertGrows(p: Palette, color: string)
    ensures p.ExtendedBy(Insert(p, color)) && color in Insert(p, color).values
    ensures Ordered(p) ==> Ordered(Insert(p, color))
  {
  }

  /** Inserting colours only grows the palette at its end, keeps it ordered, and makes every colour known. */
  lemma {:induction false} InsertAllGrows(p: Palette, colors: seq<string>)
    ensures p.ExtendedBy(InsertAll(p, colors))
    ensures Ordered(p) ==> Ordered(InsertAll(p, colors))
    ensures forall i :: 0 <= i < |colors| ==> colors[i] in InsertAll(p, colors).values
    decreases |colors|
  {
    if colors != [] {
      var front, color := colors[..|colors| - 1], colors[|colors| - 1];
      InsertAllGrows(p, front);
      InsertGrows(InsertAll(p, front), color);
    }
  }

  /** The keys are `names` in their order, and the keys from the n-th on have their place as index. */
  ghost predicate InsertedFrom(p: Palette, n: nat, names: seq<string>) {
    && p.WellFormed() && InOrderOf(p.keys, names)
    && forall i :: n <= i < |p.keys| ==> p.values[p.keys[i]] == i
  }

  lemma InsertOneInOrder(p: Palette, n: nat, names: seq<string>, color: string)
    requires InsertedFrom(p, n, names)
    ensures InsertedFrom(Insert(p, color), n, names + [color])
  {
    hide InOrderOf;
    SetKeepsOrder(p.keys, names, color);
  }

  /** The keys after inserting colours are the old keys and the colours, in the order in which they first occur. */
  lemma {:induction false} InsertedInOrder(p: Palette, colors: seq<string>)
    requires p.WellFormed()
    ensures InsertedFrom(InsertAll(p, colors), |p.keys|, p.keys + colors)
    decreases |colors|
  {
    hide InOrderOf;
    if colors == [] {
      KeysInOwnOrder(p.keys);
      assert p.keys + colors == p.keys;
    } else {
      var front, color := colors[..|colors| - 1], colors[|colors| - 1];
      InsertedInOrder(p, front);
      hide InsertedFrom;
      InsertOneInOrder(InsertAll(p, front), |p.keys|, p.keys + front, color);
      assert p.keys + colors == (p.keys + front) + [color];
    }
  }

  class ColorMap {
    var keys: seq<string>
    var values: map<string, nat>

    constructor ()
      ensures View() == Empty()
    {
      keys, values := [], map[];
    }

    ghost function View(): Palette
      reads this
    {
      JsMap(keys, values)
    }

    predicate Has(key: string)
      reads this
    {
      key in values
    }

    function Get(key: string): nat
      requires Has(key)
      reads this
    {
      values[key]
    }

    function Size(): nat
      reads this
    {
      |keys|
    }

    method Set(key: string, i: nat)
      modifies this
      ensures View() == old(View()).Set(key, i)
    {
      if key !in values {
        keys := keys + [key];
      }
      values := values[key := i];
    }
  }
}
