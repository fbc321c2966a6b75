/**
 * The line shape shared by every section of a WireGuard configuration
 * file: a list of `Key = Value` fields, each written on its own line. The
 * renderers of common/wireguard/conf.go are specified as field lists; the
 * lemmas here say how the text, the values under a key and the key order
 * of a list behave under concatenation.
 */
module ConfFields {
  import opened Text
  import K = ConfKeys

  /** One rendered line, `Key = Value`. */
  datatype Field = Field(key: K.Key, value: string)

  function FieldLine(f: Field): string {
    f.key.Name() + " = " + f.value
  }

  function Lines(fs: seq<Field>): (r: seq<string>)
    ensures |r| == |fs|
  {
    if fs == [] then [] else [FieldLine(fs[0])] + Lines(fs[1..])
  }

  lemma {:induction false} LinesAppend(a: seq<Field>, b: seq<Field>)
    ensures Lines(a + b) == Lines(a) + Lines(b)
    decreases |a|
  {
    if a == [] {
      assert a + b == b;
    } else {
      assert (a + b)[1..] == a[1..] + b;
      LinesAppend(a[1..], b);
    }
  }

  /** The text of a field list: every line terminated by '\n'. */
  function Render(fs: seq<Field>): string {
    Terminated(Lines(fs))
  }

  lemma RenderAppend(a: seq<Field>, b: seq<Field>)
    ensures Render(a + b) == Render(a) + Render(b)
  {
    LinesAppend(a, b);
    TerminatedAppend(Lines(a), Lines(b));
  }

  lemma RenderEmpty()
    ensures Render([]) == ""
  {
  }

  lemma RenderOne(f: Field)
    ensures Render([f]) == FieldLine(f) + "\n"
  {
    assert [f][1..] == [];
    assert Lines([f]) == [FieldLine(f)];
    assert Lines([f])[1..] == [];
    assert Terminated(Lines([f])[1..]) == "";
  }

  /** The first line of a rendering is its first field. */
  lemma RenderHead(f: Field, rest: seq<Field>)
    ensures HasPrefix(Render([f] + rest), FieldLine(f) + "\n")
  {
    RenderAppend([f], rest);
    RenderOne(f);
  }

  /** The values a field list gives for one key, in order. */
  function Values(fs: seq<Field>, key: K.Key): seq<string>
  {
    if fs == [] then []
    else (if fs[0].key == key then [fs[0].value] else []) + Values(fs[1..], key)
  }

  lemma {:induction false} ValuesAppend(a: seq<Field>, b: seq<Field>, key: K.Key)
    ensures Values(a + b, key) == Values(a, key) + Values(b, key)
    decreases |a|
  {
    if a == [] {
      assert a + b == b;
    } else {
      assert (a + b)[1..] == a[1..] + b;
      ValuesAppend(a[1..], b, key);
    }
  }

  /** One field per element of a list, all under the same key. */
  function Repeated(key: K.Key, values: seq<string>): (r: seq<Field>)
    ensures |r| == |values|
  {
    if values == [] then [] else [Field(key, values[0])] + Repeated(key, values[1..])
  }

  lemma {:induction false} RepeatedSnoc(key: K.Key, values: seq<string>, v: string)
    ensures Repeated(key, values + [v]) == Repeated(key, values) + [Field(key, v)]
    decreases |values|
  {
    if values == [] {
      assert [v][1..] == [];
      assert values + [v] == [v];
    } else {
      assert (values + [v])[1..] == values[1..] + [v];
      RepeatedSnoc(key, values[1..], v);
    }
  }

  lemma ValuesCons(f: Field, rest: seq<Field>, key: K.Key)
    ensures Values([f] + rest, key) == (if f.key == key then [f.value] else []) + Values(rest, key)
  {
    assert ([f] + rest)[1..] == rest;
  }

  lemma {:induction false} ValuesRepeated(key: K.Key, values: seq<string>, k: K.Key)
    ensures Values(Repeated(key, values), k) == if k == key then values else []
    decreases |values|
  {
    if values != [] {
      ValuesCons(Field(key, values[0]), Repeated(key, values[1..]), k);
      ValuesRepeated(key, values[1..], k);
      if k == key {
        assert [values[0]] + values[1..] == values;
      }
    }
  }

  // ---------------------------------------------------------------------
  // Key order

  /** Fields in the rendering order of their keys. */
  predicate Ordered(fs: seq<Field>)
  {
    |fs| <= 1 || (fs[0].key.Rank() <= fs[1].key.Rank() && Ordered(fs[1..]))
  }

  /** Every key of the list ranks within [lo, hi]. */
  predicate RanksWithin(fs: seq<Field>, lo: nat, hi: nat)
  {
    fs == [] || (lo <= fs[0].key.Rank() <= hi && RanksWithin(fs[1..], lo, hi))
  }

  /** Adjacent order is order between any two fields. */
  lemma {:induction false} OrderedPairs(fs: seq<Field>, i: nat, j: nat)
    requires Ordered(fs) && i < j < |fs|
    ensures fs[i].key.Rank() <= fs[j].key.Rank()
    decreases j
  {
    if j > i + 1 {
      OrderedPairs(fs, i, j - 1);
      OrderedAdjacent(fs, j - 1);
    } else {
      OrderedAdjacent(fs, i);
    }
  }

  lemma {:induction false} OrderedAdjacent(fs: seq<Field>, i: nat)
    requires Ordered(fs) && i + 1 < |fs|
    ensures fs[i].key.Rank() <= fs[i + 1].key.Rank()
    decreases i
  {
    if i > 0 {
      OrderedAdjacent(fs[1..], i - 1);
    }
  }

  lemma {:induction false} RanksWithinAt(fs: seq<Field>, lo: nat, hi: nat, i: nat)
    requires RanksWithin(fs, lo, hi) && i < |fs|
    ensures lo <= fs[i].key.Rank() <= hi
    decreases i
  {
    if i > 0 {
      RanksWithinAt(fs[1..], lo, hi, i - 1);
    }
  }

  lemma {:induction false} RanksWithinRaise(fs: seq<Field>, lo: nat, hi: nat, hi': nat)
    requires RanksWithin(fs, lo, hi) && hi <= hi'
    ensures RanksWithin(fs, lo, hi')
    decreases |fs|
  {
    if fs != [] {
      RanksWithinRaise(fs[1..], lo, hi, hi');
    }
  }

  lemma AppendAssoc<T>(a: seq<T>, b: seq<T>, c: seq<T>)
    ensures a + (b + c) == (a + b) + c
  {
  }

  /** A field after fields of no higher rank keeps the order. */
  lemma {:induction false} OrderedSnoc(fs: seq<Field>, f: Field, lo: nat)
    requires lo <= f.key.Rank() && Ordered(fs) && RanksWithin(fs, lo, f.key.Rank())
    ensures Ordered(fs + [f]) && RanksWithin(fs + [f], lo, f.key.Rank())
    decreases |fs|
  {
    if fs == [] {
      assert fs + [f] == [f];
      assert [f][1..] == [];
    } else {
      OrderedSnoc(fs[1..], f, lo);
      assert (fs + [f])[1..] == fs[1..] + [f];
      assert (fs + [f])[0] == fs[0];
      if |fs| > 1 {
        assert (fs + [f])[1] == fs[1];
      } else {
        assert (fs + [f])[1] == f;
      }
    }
  }

  /** A block of one key after fields of no higher rank keeps the order. */
  lemma {:induction false} OrderedAddRepeated(fs: seq<Field>, key: K.Key, values: seq<string>, lo: nat, hi: nat)
    requires lo <= key.Rank() && hi <= key.Rank() && Ordered(fs) && RanksWithin(fs, lo, hi)
    ensures Ordered(fs + Repeated(key, values))
    ensures RanksWithin(fs + Repeated(key, values), lo, key.Rank())
    decreases |values|
  {
    if values == [] {
      assert fs + Repeated(key, values) == fs;
      RanksWithinRaise(fs, lo, hi, key.Rank());
    } else {
      var init := values[..|values| - 1];
      var last := values[|values| - 1];
      assert values == init + [last];
      OrderedAddRepeated(fs, key, init, lo, hi);
      RepeatedSnoc(key, init, last);
      AppendAssoc(fs, Repeated(key, init), [Field(key, last)]);
      OrderedSnoc(fs + Repeated(key, init), Field(key, last), lo);
    }
  }

  // ---------------------------------------------------------------------
  // Sections

  /**
   * A section: for consecutive keys starting at rank r, in rank order, one
   * field per value; vals[i] holds the values of the key of rank r + i.
   */
  function Group(r: nat, vals: seq<seq<string>>): seq<Field>
    requires r + |vals| <= 16
  {
    if vals == [] then []
    else Group(r, vals[..|vals| - 1]) + Repeated(K.KeyAt(r + |vals| - 1), vals[|vals| - 1])
  }

  lemma GroupSnoc(r: nat, vals: seq<seq<string>>, j: nat)
    requires j < |vals| && r + |vals| <= 16
    ensures Group(r, vals[..j + 1]) == Group(r, vals[..j]) + Repeated(K.KeyAt(r + j), vals[j])
  {
    assert vals[..j + 1][..j] == vals[..j];
  }

  /** A section is ordered, and its keys lie in its rank range. */
  lemma {:induction false} GroupOrdered(r: nat, vals: seq<seq<string>>)
    requires r + |vals| <= 16
    ensures Ordered(Group(r, vals))
    ensures vals != [] ==> RanksWithin(Group(r, vals), r, r + |vals| - 1)
    decreases |vals|
  {
    if vals != [] {
      var n := |vals|;
      var init := vals[..n - 1];
      GroupOrdered(r, init);
      if n == 1 {
        assert Group(r, init) == [];
      }
      OrderedAddRepeated(Group(r, init), K.KeyAt(r + n - 1), vals[n - 1], r, if n == 1 then r else r + n - 2);
    }
  }

  /** The key of rank r + i carries exactly vals[i]; keys outside the range carry nothing. */
  lemma {:induction false} GroupValues(r: nat, vals: seq<seq<string>>, k: K.Key)
    requires r + |vals| <= 16
    ensures Values(Group(r, vals), k) == if r <= k.Rank() < r + |vals| then vals[k.Rank() - r] else []
    decreases |vals|
  {
    if vals != [] {
      var n := |vals|;
      var init := vals[..n - 1];
      var key := K.KeyAt(r + n - 1);
      assert Group(r, vals) == Group(r, init) + Repeated(key, vals[n - 1]);
      GroupValues(r, init, k);
      ValuesAppend(Group(r, init), Repeated(key, vals[n - 1]), k);
      ValuesRepeated(key, vals[n - 1], k);
      var kr := k.Rank();
      if kr == r + n - 1 {
        K.KeyAtRank(k);
        assert k == key;
      } else {
        assert key.Rank() != kr;
        if r <= kr < r + n - 1 {
          assert init[kr - r] == vals[kr - r];
        }
      }
    }
  }

  /** Writing the lines of key rank r + j. */
  method WriteKey(buf: string, r: nat, vals: seq<seq<string>>, j: nat) returns (buf': string)
    requires j < |vals| && r + |vals| <= 16
    requires buf == Render(Group(r, vals[..j]))
    ensures buf' == Render(Group(r, vals[..j + 1]))
  {
    ghost var fs := Group(r, vals[..j]);
    ghost var fs';
    buf', fs' := WriteLines(buf, fs, K.KeyAt(r + j), vals[j]);
    GroupSnoc(r, vals, j);
  }

  /** The lines of a whole section, key by key. */
  method WriteSection(r: nat, vals: seq<seq<string>>) returns (buf: string)
    requires r + |vals| <= 16
    ensures buf == Render(Group(r, vals))
  {
    buf := "";
    assert vals[..0] == [];
    for j := 0 to |vals|
      invariant buf == Render(Group(r, vals[..j]))
    {
      buf := WriteKey(buf, r, vals, j);
    }
    assert vals[..|vals|] == vals;
  }

  /** `buf.WriteString(key + " = " + value + "\n")`, with its field recorded. */
  method WriteField(buf: string, ghost fs: seq<Field>, key: K.Key, value: string)
    returns (buf': string, ghost fs': seq<Field>)
    requires buf == Render(fs)
    ensures fs' == fs + [Field(key, value)] && buf' == Render(fs')
  {
    buf' := buf + (key.Name() + " = " + value + "\n");
    fs' := fs + [Field(key, value)];
    RenderAppend(fs, [Field(key, value)]);
    RenderOne(Field(key, value));
  }

  lemma RepeatedStep(fs: seq<Field>, key: K.Key, values: seq<string>, i: nat)
    requires i < |values|
    ensures fs + Repeated(key, values[..i + 1]) == (fs + Repeated(key, values[..i])) + [Field(key, values[i])]
  {
    assert values[..i + 1] == values[..i] + [values[i]];
    RepeatedSnoc(key, values[..i], values[i]);
    AppendAssoc(fs, Repeated(key, values[..i]), [Field(key, values[i])]);
  }

  /** A line for each value, in order, all under one key. */
  method WriteLines(buf: string, ghost fs: seq<Field>, key: K.Key, values: seq<string>)
    returns (buf': string, ghost fs': seq<Field>)
    requires buf == Render(fs)
    ensures fs' == fs + Repeated(key, values) && buf' == Render(fs')
  {
    buf', fs' := buf, fs;
    assert fs + Repeated(key, values[..0]) == fs;
    for i := 0 to |values|
      invariant fs' == fs + Repeated(key, values[..i]) && buf' == Render(fs')
    {
      RepeatedStep(fs, key, values, i);
      buf', fs' := WriteField(buf', fs', key, values[i]);
    }
    assert values[..|values|] == values;
  }

  /** The order and key bounds restated for any two positions. */
  lemma OrderedWithin(fs: seq<Field>, lo: nat, hi: nat)
    requires Ordered(fs) && RanksWithin(fs, lo, hi)
    ensures forall i, j :: 0 <= i < j < |fs| ==> fs[i].key.Rank() <= fs[j].key.Rank()
    ensures forall i :: 0 <= i < |fs| ==> lo <= fs[i].key.Rank() <= hi
  {
    forall i, j | 0 <= i < j < |fs|
      ensures fs[i].key.Rank() <= fs[j].key.Rank()
    {
      OrderedPairs(fs, i, j);
    }
    forall i | 0 <= i < |fs|
      ensures lo <= fs[i].key.Rank() <= hi
    {
      RanksWithinAt(fs, lo, hi, i);
    }
  }
}
