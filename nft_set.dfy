/**
 * The nftables set description (common/nftables/set): a set's type,
 * flags and policy, its rendering as an anonymous set `{a,b}` and as a
 * named set declaration `set NAME{type ...;policy ...;elements={...};}`,
 * and the text builder the declaration is assembled with.
 *
 * Go's `Type`, `Flag` and `Policy` are named string types; each is a
 * datatype wrapping its text here. A Go slice that may be nil is an
 * `Option<seq<_>>` where the difference matters (flags2String) and a plain
 * sequence where it does not (ranging over nil is ranging over nothing).
 */
module NftSet {
  import opened Wrappers
  import opened Text

  datatype SetType = SetType(text: string)
  datatype Flag = Flag(text: string)
  datatype Policy = Policy(text: string)

  const TypeIpv4Addr := SetType("ipv4_addr")
  const TypeIpv6Addr := SetType("ipv6_addr")
  const TypeEtherAddr := SetType("ether_addr")
  const TypeInetProto := SetType("inet_proto")
  const TypeInetService := SetType("inet_service")
  const TypeMark := SetType("mark")
  const TypeIfname := SetType("ifname")

  const FlagConstant := Flag("constant")
  const FlagInterval := Flag("interval")
  const FlagTimeout := Flag("timeout")

  const PolicyPerformance := Policy("performance")
  const PolicyMemory := Policy("memory")

  /** The seven element types Valid accepts. */
  const KnownTypes: set<SetType> :=
    {TypeEtherAddr, TypeIfname, TypeInetProto, TypeInetService, TypeIpv4Addr, TypeIpv6Addr, TypeMark}
  /** The three flags Valid accepts. */
  const KnownFlags: set<Flag> := {FlagConstant, FlagInterval, FlagTimeout}
  /** The two policies Valid accepts. */
  const KnownPolicies: set<Policy> := {PolicyMemory, PolicyPerformance}

  datatype Set = Set(
    typ: SetType,
    name: string,
    timeout: string,
    flag: Option<seq<Flag>>,   // None is a nil slice
    gcInterval: string,
    size: string,
    policy: Policy,
    counter: bool,
    autoMerge: bool,
    elements: seq<string>)

  /** The items of a possibly nil slice. */
  function Items<T>(o: Option<seq<T>>): (r: seq<T>)
    ensures o.None? ==> r == []
  {
    if o.Some? then o.value else []
  }

  /** A set Valid accepts: a known type, only known flags, and a known policy. */
  predicate Acceptable(s: Set) {
    s.typ in KnownTypes
    && (forall f :: f in Items(s.flag) ==> f in KnownFlags)
    && s.policy in KnownPolicies
  }

  /** Set.Valid: checks the type, then each flag in turn, then the policy. */
  method Valid(s: Set) returns (ok: bool)
    ensures ok <==> Acceptable(s)
  {
    if s.typ !in KnownTypes {
      return false;
    }
    var fs := Items(s.flag);
    for k := 0 to |fs|
      invariant forall m :: 0 <= m < k ==> fs[m] in KnownFlags
    {
      if fs[k] !in KnownFlags {
        return false;
      }
    }
    return s.policy in KnownPolicies;
  }

  /** The policy is not optional: an empty one is rejected whatever else the set holds. */
  lemma PolicyRequired(s: Set)
    requires s.policy == Policy("")
    ensures !Acceptable(s)
  {
  }

  /** Flags are optional: a set without flags, nil or empty, is judged on type and policy alone. */
  lemma FlagsOptional(s: Set)
    requires Items(s.flag) == []
    ensures Acceptable(s) <==> s.typ in KnownTypes && s.policy in KnownPolicies
  {
  }

  /** One unknown flag anywhere in the list rejects the set. */
  lemma UnknownFlagRejects(s: Set, k: nat)
    requires k < |Items(s.flag)| && Items(s.flag)[k] !in KnownFlags
    ensures !Acceptable(s)
  {
    assert Items(s.flag)[k] in Items(s.flag);
  }

  /** Set.flags2String: each flag as its text, in order; nil stays nil and empty stays empty. */
  function FlagsToStrings(fs: Option<seq<Flag>>): (r: Option<seq<string>>)
    ensures r.None? <==> fs.None?
    ensures r.Some? ==> |r.value| == |fs.value|
                        && forall k :: 0 <= k < |fs.value| ==> r.value[k] == fs.value[k].text
  {
    match fs
    case None => None
    case Some(xs) => Some(seq(|xs|, k requires 0 <= k < |xs| => xs[k].text))
  }

  /** The flags come back from their texts. */
  lemma FlagsRoundTrip(fs: Option<seq<Flag>>)
    ensures var r := FlagsToStrings(fs);
      r.Some? ==> seq(|r.value|, k requires 0 <= k < |r.value| => Flag(r.value[k])) == fs.value
  {
  }

  /** Set.AsAnonymous: the elements joined by commas between braces; `{}` when there are none. */
  function AsAnonymous(s: Set): (r: string)
    ensures |r| >= 2 && r[0] == '{' && r[|r| - 1] == '}'
    ensures r[1..|r| - 1] == Join(s.elements, ",")
  {
    if |s.elements| == 0 then "{}" else "{" + Join(s.elements, ",") + "}"
  }

  /** Elements holding no comma can be read back from the anonymous set. */
  lemma AnonymousRoundTrip(s: Set)
    requires |s.elements| >= 1
    requires forall k :: 0 <= k < |s.elements| ==> ',' !in s.elements[k]
    ensures var r := AsAnonymous(s); Split(r[1..|r| - 1], ',') == s.elements
  {
    SplitJoin(s.elements, ',');
  }

  /** The byte that ends each clause of a named set declaration. */
  const Delimiter: char := ';'

  /** What AddBool writes: the key and the delimiter, only when val is set. */
  function BoolClause(key: string, val: bool): string {
    if val then key + [Delimiter] else ""
  }

  /** What AddString writes: key, a space, val and the delimiter, only when val is non-empty. */
  function StringClause(key: string, val: string): string {
    if |val| == 0 then "" else key + " " + val + [Delimiter]
  }

  /** What AddSlice writes: nothing for no items, else AddString of the items joined by delim, "," by default. */
  function SliceClause(key: string, val: seq<string>, delim: string): string {
    if |val| == 0 then "" else StringClause(key, Join(val, if delim == "" then "," else delim))
  }

  /** What AddElements writes: nothing for no elements, else `elements={a,b};`. */
  function ElementsClause(val: seq<string>): string {
    if |val| == 0 then "" else "elements={" + Join(val, ",") + "};"
  }

  /** setBuilder: the declaration text written so far. */
  class SetBuilder {
    var result: string

    /** newSetBuilder: the pool hands out a builder that is empty (it is reset when put back). */
    constructor ()
      ensures result == ""
    {
      result := "";
    }

    method SetName(s: string)
      modifies this
      ensures result == old(result) + "set " + s + "{"
    {
      result := result + "set ";
      result := result + s;
      result := result + "{";
    }

    method AddBool(key: string, val: bool)
      modifies this
      ensures result == old(result) + BoolClause(key, val)
    {
      if val {
        result := result + key;
        result := result + [Delimiter];
      }
    }

    method AddString(key: string, val: string)
      modifies this
      ensures result == old(result) + StringClause(key, val)
    {
      if val != "" {
        result := result + key;
        result := result + [' '];
        result := result + val;
        result := result + [Delimiter];
      }
    }

    method AddSlice(key: string, val: seq<string>, delim: string)
      modifies this
      ensures result == old(result) + SliceClause(key, val, delim)
    {
      if |val| != 0 {
        var d := delim;
        if d == "" {
          d := ",";
        }
        AddString(key, Join(val, d));
      }
    }

    method AddElements(val: seq<string>)
      modifies this
      ensures result == old(result) + ElementsClause(val)
    {
      if |val| != 0 {
        result := result + "elements={";
        result := result + Join(val, ",");
        result := result + "};";
      }
    }

    /** String: closes the declaration and returns it; the builder goes back to the pool, which empties it. */
    method String() returns (r: string)
      modifies this
      ensures r == old(result) + "}"
      ensures result == ""
    {
      result := result + "}";
      r := result;
      result := "";
    }
  }

  /** The declaration AsNamed returns: the name, then each clause in the order written, then the closing brace. */
  function NamedText(s: Set): string {
    "set " + s.name + "{"
    + StringClause("type", s.typ.text)
    + StringClause("timeout", s.timeout)
    + StringClause("gc-interval", s.gcInterval)
    + StringClause("size", s.size)
    + StringClause("policy", s.policy.text)
    + SliceClause("flags", Items(FlagsToStrings(s.flag)), ",")
    + BoolClause("counter", s.counter)
    + BoolClause("auto-merge", s.autoMerge)
    + ElementsClause(s.elements)
    + "}"
  }

  /** Set.AsNamed: drives a fresh builder through the clauses. */
  method AsNamed(s: Set) returns (text: string)
    ensures text == NamedText(s)
  {
    var sb := new SetBuilder();
    sb.SetName(s.name);
    ghost var want := "set " + s.name + "{";
    assert sb.result == want;
    sb.AddString("type", s.typ.text);
    want := want + StringClause("type", s.typ.text);
    sb.AddString("timeout", s.timeout);
    want := want + StringClause("timeout", s.timeout);
    sb.AddString("gc-interval", s.gcInterval);
    want := want + StringClause("gc-interval", s.gcInterval);
    sb.AddString("size", s.size);
    want := want + StringClause("size", s.size);
    sb.AddString("policy", s.policy.text);
    want := want + StringClause("policy", s.policy.text);
    sb.AddSlice("flags", Items(FlagsToStrings(s.flag)), ",");
    want := want + SliceClause("flags", Items(FlagsToStrings(s.flag)), ",");
    sb.AddBool("counter", s.counter);
    want := want + BoolClause("counter", s.counter);
    sb.AddBool("auto-merge", s.autoMerge);
    want := want + BoolClause("auto-merge", s.autoMerge);
    sb.AddElements(s.elements);
    want := want + ElementsClause(s.elements);
    assert sb.result == want;
    text := sb.String();
  }

  /** The elements clause of a named set is its anonymous form after `elements=`. */
  lemma ElementsAreAnonymous(s: Set)
    ensures ElementsClause(s.elements) == if |s.elements| == 0 then "" else "elements=" + AsAnonymous(s) + ";"
  {
  }

  /** A set with no optional field set declares only its type and its policy. */
  lemma NamedMinimal(s: Set)
    requires s.timeout == "" && s.gcInterval == "" && s.size == ""
    requires Items(s.flag) == [] && !s.counter && !s.autoMerge && s.elements == []
    requires s.typ.text != "" && s.policy.text != ""
    ensures NamedText(s) == "set " + s.name + "{type " + s.typ.text + ";policy " + s.policy.text + ";}"
  {
  }

  /** Joining with a comma gives the empty text only for no items or one empty item. */
  lemma JoinEmpty(xs: seq<string>)
    ensures Join(xs, ",") == "" <==> |xs| == 0 || (|xs| == 1 && xs[0] == "")
  {
    if |xs| >= 2 {
      assert |Join(xs, ",")| >= 1;
    }
  }

  /** No text of the set, its name included, holds the delimiter. */
  predicate DelimiterFree(s: Set) {
    Delimiter !in s.name && Delimiter !in s.typ.text && Delimiter !in s.timeout
    && Delimiter !in s.gcInterval && Delimiter !in s.size && Delimiter !in s.policy.text
    && (forall f :: f in Items(s.flag) ==> Delimiter !in f.text)
    && (forall e :: e in s.elements ==> Delimiter !in e)
  }

  function Count(b: bool): nat { if b then 1 else 0 }

  /** How often c occurs in t. */
  function Occurrences(t: string, c: char): (n: nat)
    ensures n <= |t|
  {
    if t == [] then 0 else Count(t[0] == c) + Occurrences(t[1..], c)
  }

  lemma {:induction false} OccurrencesAppend(a: string, b: string, c: char)
    ensures Occurrences(a + b, c) == Occurrences(a, c) + Occurrences(b, c)
    decreases |a|
  {
    if a != [] {
      assert (a + b)[1..] == a[1..] + b;
      OccurrencesAppend(a[1..], b, c);
    } else {
      assert a + b == b;
    }
  }

  lemma {:induction false} OccurrencesAbsent(t: string, c: char)
    ensures c !in t <==> Occurrences(t, c) == 0
    decreases |t|
  {
    if t != [] {
      OccurrencesAbsent(t[1..], c);
      assert t == [t[0]] + t[1..];
    }
  }

  lemma StringClauseDelimiters(key: string, val: string)
    requires Delimiter !in key && Delimiter !in val
    ensures Occurrences(StringClause(key, val), Delimiter) == Count(|val| != 0)
  {
    if val != "" {
      OccurrencesAbsent(key, Delimiter);
      OccurrencesAbsent(val, Delimiter);
      OccurrencesAppend(key, " ", Delimiter);
      OccurrencesAppend(key + " ", val, Delimiter);
      OccurrencesAppend(key + " " + val, [Delimiter], Delimiter);
    } else {
      assert StringClause(key, val) == "";
    }
  }

  lemma BoolClauseDelimiters(key: string, val: bool)
    requires Delimiter !in key
    ensures Occurrences(BoolClause(key, val), Delimiter) == Count(val)
  {
    if val {
      OccurrencesAbsent(key, Delimiter);
      OccurrencesAppend(key, [Delimiter], Delimiter);
    }
  }

  lemma FlagsClauseDelimiters(s: Set)
    requires forall f :: f in Items(s.flag) ==> Delimiter !in f.text
    ensures var fs := Items(s.flag);
      Occurrences(SliceClause("flags", Items(FlagsToStrings(s.flag)), ","), Delimiter)
      == Count(|fs| >= 2 || (|fs| == 1 && |fs[0].text| != 0))
  {
    var fs := Items(s.flag);
    var ts := Items(FlagsToStrings(s.flag));
    assert |ts| == |fs| && forall k :: 0 <= k < |ts| ==> ts[k] == fs[k].text;
    forall k | 0 <= k < |ts|
      ensures Delimiter !in ts[k]
    {
      assert fs[k] in fs;
    }
    JoinNoChar(ts, ",", Delimiter);
    JoinEmpty(ts);
    if |ts| != 0 {
      StringClauseDelimiters("flags", Join(ts, ","));
    }
  }

  lemma ElementsDelimiters(open: string, j: string, close: string)
    requires Delimiter !in open && Delimiter !in j && close == "};"
    ensures Occurrences(open + j + close, Delimiter) == 1
  {
    OccurrencesAbsent(j, Delimiter);
    OccurrencesAbsent(open, Delimiter);
    OccurrencesAppend(open, j, Delimiter);
    OccurrencesAppend(open + j, close, Delimiter);
  }

  lemma ElementsClauseDelimiters(xs: seq<string>)
    requires forall e :: e in xs ==> Delimiter !in e
    ensures Occurrences(ElementsClause(xs), Delimiter) == Count(|xs| != 0)
  {
    if |xs| != 0 {
      forall k | 0 <= k < |xs|
        ensures Delimiter !in xs[k]
      {
        assert xs[k] in xs;
      }
      JoinNoChar(xs, ",", Delimiter);
      ElementsDelimiters("elements={", Join(xs, ","), "};");
    }
  }

  /** Delimiters add up over a declaration's pieces. */
  lemma DelimitersAdd(head: string, c1: string, c2: string, c3: string, c4: string, c5: string,
                      c6: string, c7: string, c8: string, c9: string, tail: string,
                      n1: nat, n2: nat, n3: nat, n4: nat, n5: nat, n6: nat, n7: nat, n8: nat, n9: nat)
    requires Occurrences(head, Delimiter) == 0 && Occurrences(tail, Delimiter) == 0
    requires Occurrences(c1, Delimiter) == n1 && Occurrences(c2, Delimiter) == n2
    requires Occurrences(c3, Delimiter) == n3 && Occurrences(c4, Delimiter) == n4
    requires Occurrences(c5, Delimiter) == n5 && Occurrences(c6, Delimiter) == n6
    requires Occurrences(c7, Delimiter) == n7 && Occurrences(c8, Delimiter) == n8
    requires Occurrences(c9, Delimiter) == n9
    ensures Occurrences(head + c1 + c2 + c3 + c4 + c5 + c6 + c7 + c8 + c9 + tail, Delimiter)
            == n1 + n2 + n3 + n4 + n5 + n6 + n7 + n8 + n9
  {
    OccurrencesAppend(head, c1, Delimiter);
    OccurrencesAppend(head + c1, c2, Delimiter);
    OccurrencesAppend(head + c1 + c2, c3, Delimiter);
    OccurrencesAppend(head + c1 + c2 + c3, c4, Delimiter);
    OccurrencesAppend(head + c1 + c2 + c3 + c4, c5, Delimiter);
    OccurrencesAppend(head + c1 + c2 + c3 + c4 + c5, c6, Delimiter);
    OccurrencesAppend(head + c1 + c2 + c3 + c4 + c5 + c6, c7, Delimiter);
    OccurrencesAppend(head + c1 + c2 + c3 + c4 + c5 + c6 + c7, c8, Delimiter);
    OccurrencesAppend(head + c1 + c2 + c3 + c4 + c5 + c6 + c7 + c8, c9, Delimiter);
    OccurrencesAppend(head + c1 + c2 + c3 + c4 + c5 + c6 + c7 + c8 + c9, tail, Delimiter);
  }

  /**
   * Every clause ends in exactly one delimiter: when no text of the set
   * holds one, the declaration holds one delimiter per non-empty text field
   * and per set boolean, one for the elements when there are any, and one
   * for the flags unless they join to nothing (no flags, or a single empty
   * flag).
   */
  lemma NamedDelimiters(s: Set)
    requires DelimiterFree(s)
    ensures var fs := Items(s.flag);
      Occurrences(NamedText(s), Delimiter)
      == Count(|s.typ.text| != 0) + Count(|s.timeout| != 0) + Count(|s.gcInterval| != 0) + Count(|s.size| != 0)
         + Count(|s.policy.text| != 0) + Count(|fs| >= 2 || (|fs| == 1 && |fs[0].text| != 0))
         + Count(s.counter) + Count(s.autoMerge) + Count(|s.elements| != 0)
  {
    var fs := Items(s.flag);
    var head := "set " + s.name + "{";
    OccurrencesAbsent(head, Delimiter);
    OccurrencesAbsent("}", Delimiter);
    StringClauseDelimiters("type", s.typ.text);
    StringClauseDelimiters("timeout", s.timeout);
    StringClauseDelimiters("gc-interval", s.gcInterval);
    StringClauseDelimiters("size", s.size);
    StringClauseDelimiters("policy", s.policy.text);
    FlagsClauseDelimiters(s);
    BoolClauseDelimiters("counter", s.counter);
    BoolClauseDelimiters("auto-merge", s.autoMerge);
    ElementsClauseDelimiters(s.elements);
    DelimitersAdd(head,
      StringClause("type", s.typ.text), StringClause("timeout", s.timeout),
      StringClause("gc-interval", s.gcInterval), StringClause("size", s.size),
      StringClause("policy", s.policy.text), SliceClause("flags", Items(FlagsToStrings(s.flag)), ","),
      BoolClause("counter", s.counter), BoolClause("auto-merge", s.autoMerge),
      ElementsClause(s.elements), "}",
      Count(|s.typ.text| != 0), Count(|s.timeout| != 0), Count(|s.gcInterval| != 0), Count(|s.size| != 0),
      Count(|s.policy.text| != 0), Count(|fs| >= 2 || (|fs| == 1 && |fs[0].text| != 0)),
      Count(s.counter), Count(s.autoMerge), Count(|s.elements| != 0));
  }
}
