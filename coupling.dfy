/** The coupling aggregation of `Parser`: the AST visitor callbacks that count
    invocations between classes, and `getCouplingMetrics`, which turns the
    counters into a nested map of weights. The JDT traversal itself is not
    modelled: it is the caller of the callbacks below, which receive the
    identifiers and the package name that the AST nodes would provide. */
module Coupling {
  import opened Collections
  import opened JavaStrings

  /** The only key ever used in `totalCouplingCount`. */
  const TotalKey: string := "TOTAL"

  /** The separator of the keys of `classPairCouplingCount`. */
  const Arrow: string := " -> "

  /** The prefixes `isUserDefinedClass` rejects. */
  const LibraryPrefixes: seq<string> := ["java.", "javax.", "org."]

  // ---------------------------------------------------------------------------
  // Filtering invoked classes

  /** Some character of `s` is above U+0020. */
  predicate HasVisibleChar(s: string)
  {
    exists i :: 0 <= i < |s| && ' ' < s[i]
  }

  /** `s` starts with one of the library prefixes. */
  predicate HasLibraryPrefix(s: string)
  {
    exists p :: p in LibraryPrefixes && p <= s
  }

  /** `isUserDefinedClass`: false for null, for blank names and for names that
      start with "java.", "javax." or "org."; true otherwise. */
  function IsUserDefinedClass(className: Option<string>): (r: bool)
    ensures r <==> className.Some? && HasVisibleChar(className.value) && !HasLibraryPrefix(className.value)
  {
    match className
    case None => false
    case Some(name) =>
      BlankIffNoVisibleChar(name);
      assert HasLibraryPrefix(name) <==> "java." <= name || "javax." <= name || "org." <= name by {
        assert LibraryPrefixes == ["java.", "javax.", "org."];
        assert "java." in LibraryPrefixes && "javax." in LibraryPrefixes && "org." in LibraryPrefixes;
      }
      if IsBlank(name) then false
      else if "java." <= name || "javax." <= name || "org." <= name then false
      else true
  }

  /** The expression an invocation is called on (`node.getExpression()`), by
      the kinds of node the visitor distinguishes. */
  datatype Receiver =
    | NoReceiver                                  // no expression: `foo()`
    | SimpleNameReceiver(identifier: string)      // `x.foo()`
    | InvocationReceiver(methodName: string)      // `bar().foo()`, `a.bar().foo()`
    | QualifiedNameReceiver(qualifiedName: string) // `a.b.foo()`
    | FieldAccessReceiver(fieldName: string)      // `this.f.foo()`
    | OtherReceiver                               // `this.foo()`, `new A().foo()`, ...

  /** The text an AST node of the receiver carries ("" when it carries none). */
  function ReceiverText(e: Receiver): string
  {
    match e
    case SimpleNameReceiver(id) => id
    case InvocationReceiver(name) => name
    case QualifiedNameReceiver(q) => q
    case FieldAccessReceiver(name) => name
    case _ => ""
  }

  /** `calledClass` as extracted from the receiver: the identifier, the
      invoked method's name, the text before the first '.' of a qualified
      name, the accessed field's name; null for the other kinds. */
  function CalledClass(e: Receiver): (r: Option<string>)
    ensures r.Some? <==> !e.NoReceiver? && !e.OtherReceiver?
    ensures r.Some? && e.QualifiedNameReceiver? ==> r.value <= ReceiverText(e) && '.' !in r.value
    ensures r.Some? && !e.QualifiedNameReceiver? ==> r.value == ReceiverText(e)
  {
    match e
    case NoReceiver => None
    case SimpleNameReceiver(id) => Some(id)
    case InvocationReceiver(name) => Some(name)
    case QualifiedNameReceiver(q) => Some(FirstSegment(q))
    case FieldAccessReceiver(name) => Some(name)
    case OtherReceiver => None
  }

  /** The library-prefix test of `isUserDefinedClass` never rejects a name
      the visitor extracts: identifiers and the first segment of a qualified
      name contain no '.', and every rejected prefix ends in one. So an
      extracted name passes the filter exactly when it is not blank. */
  lemma ExtractedNamesPassLibraryFilter(e: Receiver)
    requires e.QualifiedNameReceiver? || '.' !in ReceiverText(e)
    requires CalledClass(e).Some?
    ensures IsUserDefinedClass(CalledClass(e)) <==> !IsBlank(CalledClass(e).value)
  {
    var name := CalledClass(e).value;
    assert '.' !in name;
    forall p | p in LibraryPrefixes ensures !(p <= name) {
      assert p[|p| - 1] == '.';
    }
    assert !HasLibraryPrefix(name);
    BlankIffNoVisibleChar(name);
  }

  /** The conditions under which `visit(MethodInvocation)` counts an
      invocation: inside a method of a class, with a non-blank called class
      that passes `isUserDefinedClass`. Self pairs are not excluded. */
  predicate CountsInvocation(currentClass: Option<string>, currentMethod: Option<string>, calledClass: Option<string>)
  {
    && currentClass.Some?
    && currentMethod.Some?
    && calledClass.Some?
    && !IsBlank(calledClass.value)
    && IsUserDefinedClass(calledClass)
  }

  /** An extracted name is a prefix of the receiver's text, so it is
      space-free when that text is. */
  lemma ExtractedNameIsToken(e: Receiver)
    requires IsToken(ReceiverText(e)) && CalledClass(e).Some?
    ensures IsToken(CalledClass(e).value)
  {
    var name, text := CalledClass(e).value, ReceiverText(e);
    assert name <= text;
    forall i | 0 <= i < |name| ensures name[i] != ' ' {
      assert name[i] == text[i];
    }
  }

  /** A counted callee is a non-empty space-free name when the
      receiver's text is space-free. */
  lemma CountedCalleeIsName(e: Receiver)
    requires IsToken(ReceiverText(e))
    requires IsUserDefinedClass(CalledClass(e))
    ensures CalledClass(e).Some? && IsToken(CalledClass(e).value) && CalledClass(e).value != []
  {
    ExtractedNameIsToken(e);
    assert HasVisibleChar(CalledClass(e).value);
  }

  /** A call from a method of `A` on a receiver named `A` is counted like any
      other: `A -> A` is a pair of its own. `A` starts with a Java letter,
      which is above U+0020. */
  lemma SelfInvocationIsCounted(a: string, m: string)
    requires IsToken(a) && a != [] && ' ' < a[0]
    requires !HasLibraryPrefix(a)
    ensures CountsInvocation(Some(a), Some(m), CalledClass(SimpleNameReceiver(a)))
  {
    BlankIffNoVisibleChar(a);
  }

  // ---------------------------------------------------------------------------
  // Relation keys

  /** `currentClass + " -> " + calledClass`. */
  function RelationKey(caller: string, callee: string): string
  {
    caller + Arrow + callee
  }

  /** A key `split(" -> ")` breaks back into its caller and callee, for the
      space-free names that Java identifiers are. */
  lemma RelationKeyRoundTrip(caller: string, callee: string)
    requires IsToken(caller) && IsToken(callee) && callee != []
    ensures JavaSplit(RelationKey(caller, callee), Arrow) == [caller, callee]
  {
    var key := RelationKey(caller, callee);
    var n := |caller|;
    assert key[n..n + 4] == Arrow;
    assert OccursAt(key, Arrow, n);
    forall k | 0 <= k < n ensures !OccursAt(key, Arrow, k) {
      assert key[k..k + 4][0] == caller[k];
    }
    assert IndexOf(key, Arrow) == Some(n);
    assert key[n + 4..] == callee;
    forall k | 0 <= k <= |callee| ensures !OccursAt(callee, Arrow, k) {
      if k + 4 <= |callee| {
        assert callee[k..k + 4][0] == callee[k];
      }
    }
    assert IndexOf(callee, Arrow).None?;
    assert SplitAll(callee, Arrow) == [callee];
    assert key[..n] == caller;
    assert SplitAll(key, Arrow) == [key[..n]] + SplitAll(key[n + 4..], Arrow);
  }

  /** Names free of " -> " are not enough for the round trip: a caller that
      ends in " ->" shifts the first match of the separator to the left. */
  lemma ArrowFreeNamesCanSplitWrongly()
    ensures IndexOf("a ->", Arrow).None? && IndexOf("b", Arrow).None?
    ensures JavaSplit(RelationKey("a ->", "b"), Arrow) == ["a", "-> b"]
  {
    var key := RelationKey("a ->", "b");
    assert key == "a -> -> b";
    assert key[0..4][0] == 'a';
    assert !OccursAt(key, Arrow, 0);
    assert key[1..5] == Arrow;
    assert IndexOf(key, Arrow) == Some(1);
    assert key[..1] == "a";
    assert key[5..] == "-> b";
    assert "-> b"[0..4][0] == '-';
    assert !OccursAt("-> b", Arrow, 0);
    assert IndexFrom("-> b", Arrow, 1).None?;
    assert IndexOf("-> b", Arrow).None?;
    assert SplitAll(key, Arrow) == [key[..1]] + SplitAll(key[5..], Arrow);
    assert !OccursAt("a ->", Arrow, 0);
    assert IndexFrom("a ->", Arrow, 1).None?;
  }

  /** The key was built by `RelationKey` from two space-free names, the
      second one non-empty: the only keys `visit(MethodInvocation)` writes. */
  ghost predicate IsRelationKey(key: string)
  {
    exists caller, callee :: IsToken(caller) && IsToken(callee) && callee != [] && key == RelationKey(caller, callee)
  }

  // ---------------------------------------------------------------------------
  // Counters

  /** `counts.getOrDefault(key, 0)`. */
  function CountOf(counts: map<string, nat>, key: string): nat
  {
    if key in counts then counts[key] else 0
  }

  /** `counts.merge(key, 1, Integer::sum)`. */
  function Merge1(counts: map<string, nat>, key: string): (r: map<string, nat>)
    ensures r.Keys == counts.Keys + {key}
    ensures CountOf(r, key) == CountOf(counts, key) + 1
    ensures forall k :: k != key ==> CountOf(r, k) == CountOf(counts, k)
  {
    counts[key := CountOf(counts, key) + 1]
  }

  ghost function PickKey(counts: map<string, nat>): (k: string)
    requires counts != map[]
    ensures k in counts
  {
    var k :| k in counts; k
  }

  /** The sum of all the counters of a map. */
  ghost function SumCounts(counts: map<string, nat>): nat
    decreases counts.Keys
  {
    if counts == map[] then 0
    else
      var k := PickKey(counts);
      counts[k] + SumCounts(counts - {k})
  }

  /** The sum does not depend on which key is taken out first. */
  lemma {:induction false} SumCountsRemove(counts: map<string, nat>, k: string)
    requires k in counts
    ensures SumCounts(counts) == counts[k] + SumCounts(counts - {k})
    decreases counts.Keys
  {
    var j := PickKey(counts);
    if j != k {
      var rest := counts - {j};
      SumCountsRemove(rest, k);
      SumCountsRemove(counts - {k}, j);
      assert rest - {k} == counts - {k} - {j};
    }
  }

  /** One `merge(key, 1, Integer::sum)` adds exactly one to the sum. */
  lemma SumCountsMerge1(counts: map<string, nat>, key: string)
    ensures SumCounts(Merge1(counts, key)) == SumCounts(counts) + 1
  {
    var n := Merge1(counts, key);
    SumCountsRemove(n, key);
    assert n - {key} == counts - {key};
    if key in counts {
      SumCountsRemove(counts, key);
    } else {
      assert counts - {key} == counts;
    }
  }

  /** Each counter is at most the sum of all of them. */
  lemma CountAtMostSum(counts: map<string, nat>, k: string)
    requires k in counts
    ensures counts[k] <= SumCounts(counts)
  {
    SumCountsRemove(counts, k);
  }

  /** The invariant of the two counter maps: `totalCouplingCount` has no key
      but "TOTAL", holds it exactly when some pair was counted, and its value
      is the sum of all pair counters; every pair counter is positive and is
      kept under a well-formed "caller -> callee" key. */
  ghost predicate CountersConsistent(total: map<string, nat>, pairs: map<string, nat>)
  {
    && total.Keys <= {TotalKey}
    && (TotalKey in total <==> pairs != map[])
    && CountOf(total, TotalKey) == SumCounts(pairs)
    && forall key :: key in pairs ==> 1 <= pairs[key] && IsRelationKey(key)
  }

  /** Counting one invocation — one to "TOTAL", one to the pair — keeps the
      counters in sync. */
  lemma CountedInvocationKeepsSync(total: map<string, nat>, pairs: map<string, nat>, caller: string, callee: string)
    requires CountersConsistent(total, pairs)
    requires IsToken(caller) && IsToken(callee) && callee != []
    ensures CountersConsistent(Merge1(total, TotalKey), Merge1(pairs, RelationKey(caller, callee)))
  {
    var key := RelationKey(caller, callee);
    SumCountsMerge1(pairs, key);
    RelationKeyRoundTrip(caller, callee);
    var total' := Merge1(total, TotalKey);
    var pairs' := Merge1(pairs, key);
    assert key in pairs';
    assert pairs' != map[];
  }

  /** The counters start empty and consistent. */
  lemma EmptyCountersConsistent()
    ensures CountersConsistent(map[], map[])
  {
    assert SumCounts(map[]) == 0;
  }

  /** `totalCouplingCount.getOrDefault("TOTAL", 1)`: the denominator of
      `getCouplingMetrics`. */
  function Denominator(total: map<string, nat>): (r: nat)
    ensures TotalKey in total ==> r == CountOf(total, TotalKey)
    ensures TotalKey !in total ==> r == 1
  {
    if TotalKey in total then total[TotalKey] else 1
  }

  /** With consistent counters the denominator is positive and bounds every
      pair counter. */
  lemma DenominatorBoundsCounts(total: map<string, nat>, pairs: map<string, nat>)
    requires CountersConsistent(total, pairs)
    ensures Denominator(total) >= 1
    ensures forall key :: key in pairs ==> 1 <= pairs[key] <= Denominator(total)
    ensures forall key :: key in pairs ==> SplitsInTwo(key)
  {
    forall key | key in pairs ensures 1 <= pairs[key] <= Denominator(total) && SplitsInTwo(key) {
      CountAtMostSum(pairs, key);
      assert IsRelationKey(key);
      var caller, callee :| IsToken(caller) && IsToken(callee) && callee != [] && key == RelationKey(caller, callee);
      RelationKeyRoundTrip(caller, callee);
    }
    if pairs != map[] {
      var key := PickKey(pairs);
      CountAtMostSum(pairs, key);
    }
  }

  /** The metric `printCouplingMetrics` prints for a pair:
      `abRelations / totalRelations`, and 0 when the total is 0. */
  function PrintedMetric(abRelations: int, totalRelations: int): (r: real)
    ensures totalRelations == 0 ==> r == 0.0
    ensures 0 <= abRelations <= totalRelations ==> 0.0 <= r <= 1.0
  {
    if totalRelations == 0 then 0.0 else abRelations as real / totalRelations as real
  }

  /** The printed metric of a counted pair is the weight `getCouplingMetrics`
      stores for it. */
  lemma PrintedMetricIsStoredWeight(total: map<string, nat>, pairs: map<string, nat>, key: string)
    requires CountersConsistent(total, pairs) && key in pairs
    ensures PrintedMetric(pairs[key], CountOf(total, TotalKey)) == Weight(pairs, key, Denominator(total))
  {
    DenominatorBoundsCounts(total, pairs);
  }

  // ---------------------------------------------------------------------------
  // The weights map built by getCouplingMetrics

  /** The weight of one counted pair: its counter over the denominator. */
  function Weight(counts: map<string, nat>, key: string, denom: nat): (r: real)
    requires key in counts && denom > 0
    ensures r * denom as real == counts[key] as real
  {
    counts[key] as real / denom as real
  }

  /** A counter of at least 1 and at most the denominator gives a weight in (0, 1]. */
  lemma WeightInUnitInterval(count: nat, denom: nat)
    requires 1 <= count <= denom
    ensures 0.0 < count as real / denom as real <= 1.0
  {
    assert count as real <= denom as real;
    assert count as real / denom as real <= denom as real / denom as real;
  }

  /** `classes[0]` and `classes[1]` exist after `key.split(" -> ")`. */
  predicate SplitsInTwo(key: string)
  {
    |JavaSplit(key, Arrow)| >= 2
  }

  /** What one iteration of `getCouplingMetrics` writes: `class1` and
      `class2` (`classes[0]`, `classes[1]`) and the metric. */
  datatype Relation = Relation(class1: string, class2: string, weight: real)
  {
    /** The relation is about the unordered pair {a, b}. */
    predicate Joins(a: string, b: string)
    {
      (class1 == a && class2 == b) || (class1 == b && class2 == a)
    }
  }

  /** The relation an iteration derives from one counter entry. */
  function RelationOf(key: string, counts: map<string, nat>, denom: nat): Relation
    requires key in counts && denom > 0 && SplitsInTwo(key)
  {
    var classes := JavaSplit(key, Arrow);
    Relation(classes[0], classes[1], Weight(counts, key, denom))
  }

  /** The relations of the counter keys, in iteration order. */
  function RelationsOf(order: seq<string>, counts: map<string, nat>, denom: nat): (rels: seq<Relation>)
    requires denom > 0
    requires forall t :: 0 <= t < |order| ==> order[t] in counts && SplitsInTwo(order[t])
    ensures |rels| == |order|
    ensures forall t :: 0 <= t < |order| ==> rels[t] == RelationOf(order[t], counts, denom)
  {
    seq(|order|, t requires 0 <= t < |order| => RelationOf(order[t], counts, denom))
  }

  /** `m.computeIfAbsent(c1, k -> new HashMap<>()).put(c2, w)`. */
  function PutNested(m: map<string, map<string, real>>, c1: string, c2: string, w: real): map<string, map<string, real>>
  {
    m[c1 := (if c1 in m then m[c1] else map[])[c2 := w]]
  }

  /** `PutNested` sets `m[c1][c2]` and leaves every other entry as it was. */
  lemma PutNestedEntries(m: map<string, map<string, real>>, c1: string, c2: string, w: real)
    ensures var r := PutNested(m, c1, c2, w);
      && c1 in r && c2 in r[c1] && r[c1][c2] == w
      && (forall a :: a in r <==> a in m || a == c1)
      && forall a, b :: (a != c1 || b != c2) ==>
           (a in r && b in r[a] <==> a in m && b in m[a]) &&
           (a in m && b in m[a] ==> r[a][b] == m[a][b])
  {
  }

  /** One iteration of `getCouplingMetrics`: the weight is written under
      `m[c1][c2]` and under `m[c2][c1]`, replacing what was there. */
  function AddRelation(m: map<string, map<string, real>>, rel: Relation): map<string, map<string, real>>
  {
    PutNested(PutNested(m, rel.class1, rel.class2, rel.weight), rel.class2, rel.class1, rel.weight)
  }

  /** The map after writing `rels` in order. */
  function BuildMetrics(rels: seq<Relation>): map<string, map<string, real>>
  {
    if rels == [] then map[] else AddRelation(BuildMetrics(rels[..|rels| - 1]), rels[|rels| - 1])
  }

  /** Writing one more relation. */
  lemma BuildMetricsSnoc(rels: seq<Relation>, i: nat)
    requires i < |rels|
    ensures BuildMetrics(rels[..i + 1]) == AddRelation(BuildMetrics(rels[..i]), rels[i])
  {
    assert rels[..i + 1][..i] == rels[..i];
  }

  /** What `getCouplingMetrics` returns after visiting the counter keys in
      `order` (the iteration order of the `HashMap`). */
  function MetricsOf(order: seq<string>, counts: map<string, nat>, denom: nat): map<string, map<string, real>>
    requires denom > 0
    requires forall t :: 0 <= t < |order| ==> order[t] in counts && SplitsInTwo(order[t])
  {
    BuildMetrics(RelationsOf(order, counts, denom))
  }

  /** `m[a][b]` is present exactly when `m[b][a]` is, with the same value. */
  ghost predicate IsSymmetric(m: map<string, map<string, real>>)
  {
    forall a, b :: a in m && b in m[a] ==> b in m && a in m[b] && m[b][a] == m[a][b]
  }

  /** Writing both directions of a relation: the entries of {c1, c2} get its
      weight, every other entry is kept. */
  lemma AddRelationEntries(m: map<string, map<string, real>>, rel: Relation)
    ensures var r := AddRelation(m, rel);
      && (forall a :: a in r <==> a in m || a == rel.class1 || a == rel.class2)
      && (forall a, b :: rel.Joins(a, b) ==> a in r && b in r[a] && r[a][b] == rel.weight)
      && forall a, b :: !rel.Joins(a, b) ==>
           (a in r && b in r[a] <==> a in m && b in m[a]) &&
           (a in m && b in m[a] ==> r[a][b] == m[a][b])
  {
    PutNestedEntries(m, rel.class1, rel.class2, rel.weight);
    PutNestedEntries(PutNested(m, rel.class1, rel.class2, rel.weight), rel.class2, rel.class1, rel.weight);
  }

  /** The map `getCouplingMetrics` builds is symmetric. */
  lemma {:induction false} BuildMetricsSymmetric(rels: seq<Relation>)
    ensures IsSymmetric(BuildMetrics(rels))
  {
    if rels != [] {
      var m := BuildMetrics(rels[..|rels| - 1]);
      BuildMetricsSymmetric(rels[..|rels| - 1]);
      AddRelationEntries(m, rels[|rels| - 1]);
    }
  }

  /** Every entry `m[a][b]` is the weight of a relation of `rels` about {a, b}. */
  ghost predicate EntriesFromRelations(m: map<string, map<string, real>>, rels: seq<Relation>)
  {
    forall a, b :: a in m && b in m[a] ==>
      exists t :: 0 <= t < |rels| && rels[t].Joins(a, b) && m[a][b] == rels[t].weight
  }

  /** Every key of `m` is one of the two classes of a relation of `rels`. */
  ghost predicate KeysFromRelations(m: map<string, map<string, real>>, rels: seq<Relation>)
  {
    forall a :: a in m ==> exists t :: 0 <= t < |rels| && (a == rels[t].class1 || a == rels[t].class2)
  }

  /** Nothing but the relations written ends up in the map. */
  lemma {:induction false} BuildMetricsFromRelations(rels: seq<Relation>)
    ensures EntriesFromRelations(BuildMetrics(rels), rels)
    ensures KeysFromRelations(BuildMetrics(rels), rels)
  {
    if rels != [] {
      var prefix := rels[..|rels| - 1];
      var rel := rels[|rels| - 1];
      var m0 := BuildMetrics(prefix);
      var m := BuildMetrics(rels);
      BuildMetricsFromRelations(prefix);
      AddRelationEntries(m0, rel);
      forall a, b | a in m && b in m[a]
        ensures exists t :: 0 <= t < |rels| && rels[t].Joins(a, b) && m[a][b] == rels[t].weight
      {
        if rel.Joins(a, b) {
          assert rels[|rels| - 1].Joins(a, b);
        } else {
          assert a in m0 && b in m0[a];
          assert EntriesFromRelations(m0, prefix);
          var t :| 0 <= t < |prefix| && prefix[t].Joins(a, b) && m0[a][b] == prefix[t].weight;
          assert rels[t] == prefix[t];
        }
      }
      forall a | a in m
        ensures exists t :: 0 <= t < |rels| && (a == rels[t].class1 || a == rels[t].class2)
      {
        if a == rel.class1 || a == rel.class2 {
          assert rels[|rels| - 1] == rel;
        } else {
          assert a in m0;
          assert KeysFromRelations(m0, prefix);
          var t :| 0 <= t < |prefix| && (a == prefix[t].class1 || a == prefix[t].class2);
          assert rels[t] == prefix[t];
        }
      }
    }
  }

  /** The last relation (in iteration order) about {a, b} decides `m[a][b]`:
      `A -> B` and `B -> A` overwrite each other rather than add up. */
  lemma {:induction false} LastWriterWins(rels: seq<Relation>, t: nat, a: string, b: string)
    requires t < |rels| && rels[t].Joins(a, b)
    requires forall u :: t < u < |rels| ==> !rels[u].Joins(a, b)
    ensures var m := BuildMetrics(rels);
      a in m && b in m[a] && m[a][b] == rels[t].weight
  {
    var prefix := rels[..|rels| - 1];
    AddRelationEntries(BuildMetrics(prefix), rels[|rels| - 1]);
    if t < |rels| - 1 {
      LastWriterWins(prefix, t, a, b);
    }
  }

  /** When both directions between two classes were counted and are visited
      `a -> b` first, both entries hold the weight of `b -> a`: the two counts
      overwrite each other instead of adding up. */
  lemma LaterDirectionOverwrites(a: string, b: string, counts: map<string, nat>, denom: nat)
    requires IsToken(a) && IsToken(b) && a != [] && b != [] && denom > 0
    requires RelationKey(a, b) in counts && RelationKey(b, a) in counts
    ensures SplitsInTwo(RelationKey(a, b)) && SplitsInTwo(RelationKey(b, a))
    ensures var order := [RelationKey(a, b), RelationKey(b, a)];
      forall t :: 0 <= t < |order| ==> order[t] in counts && SplitsInTwo(order[t])
    ensures var m := MetricsOf([RelationKey(a, b), RelationKey(b, a)], counts, denom);
      && a in m && b in m[a] && m[a][b] == Weight(counts, RelationKey(b, a), denom)
      && b in m && a in m[b] && m[b][a] == Weight(counts, RelationKey(b, a), denom)
  {
    RelationKeyRoundTrip(a, b);
    RelationKeyRoundTrip(b, a);
    var rels := RelationsOf([RelationKey(a, b), RelationKey(b, a)], counts, denom);
    assert rels[1] == Relation(b, a, Weight(counts, RelationKey(b, a), denom));
    LastWriterWins(rels, 1, a, b);
    LastWriterWins(rels, 1, b, a);
  }

  /** Example: with "A -> B" counted twice and "B -> A" once, visited in that
      order, both directions end up with weight 1/3, not 3/3. */
  lemma OverwriteExample()
    ensures SplitsInTwo(RelationKey("A", "B")) && SplitsInTwo(RelationKey("B", "A"))
    ensures var ab, ba := RelationKey("A", "B"), RelationKey("B", "A");
      var m := MetricsOf([ab, ba], map[ab := 2, ba := 1], 3);
      "A" in m && "B" in m["A"] && m["A"]["B"] == 1.0 / 3.0
      && "B" in m && "A" in m["B"] && m["B"]["A"] == 1.0 / 3.0
  {
    var ab, ba := RelationKey("A", "B"), RelationKey("B", "A");
    assert ab[0] != ba[0];
    LaterDirectionOverwrites("A", "B", map[ab := 2, ba := 1], 3);
  }



  /** For counters in the state the visitor keeps them, the map is symmetric,
      every weight lies in (0, 1], and every class in it is one side of a
      counted relation key. */
  lemma MetricsOfProperties(order: seq<string>, counts: map<string, nat>, denom: nat)
    requires denom > 0
    requires forall key :: key in counts ==> 1 <= counts[key] <= denom && SplitsInTwo(key)
    requires forall t :: 0 <= t < |order| ==> order[t] in counts
    ensures var m := MetricsOf(order, counts, denom);
      && IsSymmetric(m)
      && (forall a, b :: a in m && b in m[a] ==> 0.0 < m[a][b] <= 1.0)
      && forall a :: a in m ==> exists key :: key in counts && a in JavaSplit(key, Arrow)
  {
    var rels := RelationsOf(order, counts, denom);
    var m := BuildMetrics(rels);
    BuildMetricsSymmetric(rels);
    BuildMetricsFromRelations(rels);
    assert EntriesFromRelations(m, rels);
    assert KeysFromRelations(m, rels);
    forall a, b | a in m && b in m[a] ensures 0.0 < m[a][b] <= 1.0 {
      var t :| 0 <= t < |rels| && rels[t].Joins(a, b) && m[a][b] == rels[t].weight;
      var key := order[t];
      assert rels[t].weight == counts[key] as real / denom as real;
      WeightInUnitInterval(counts[key], denom);
    }
    forall a | a in m ensures exists key :: key in counts && a in JavaSplit(key, Arrow) {
      var t :| 0 <= t < |rels| && (a == rels[t].class1 || a == rels[t].class2);
      var key := order[t];
      var classes := JavaSplit(key, Arrow);
      assert rels[t] == Relation(classes[0], classes[1], Weight(counts, key, denom));
      assert a == classes[0] || a == classes[1];
      assert key in counts && a in classes;
    }
  }

  // ---------------------------------------------------------------------------
  // The visitor state

  /** Whether `visit(TypeDeclaration)` registers a class: its compilation unit
      declares a package, not under "java." or "javax.". */
  predicate IsProjectPackage(package: Option<string>)
  {
    package.Some? && !("java." <= package.value) && !("javax." <= package.value)
  }

  /** `classMethodsMap.get(c)`, read as empty when absent. */
  function MethodsOf(classMethods: map<string, set<string>>, c: string): set<string>
  {
    if c in classMethods then classMethods[c] else {}
  }

  /** The state `Parser` keeps: its static maps and the visitor's position
      (`currentClass`, `currentMethod`, null outside a type or method). */
  class Parser {
    var classMethodsMap: map<string, set<string>>
    var totalCouplingCount: map<string, nat>
    var classPairCouplingCount: map<string, nat>
    var userDefinedClasses: set<string>
    var currentClass: Option<string>
    var currentMethod: Option<string>

    ghost predicate Valid()
      reads this
    {
      && CountersConsistent(totalCouplingCount, classPairCouplingCount)
      && (currentClass.Some? ==> IsToken(currentClass.value))
      && userDefinedClasses <= classMethodsMap.Keys
    }

    constructor ()
      ensures Valid()
      ensures classMethodsMap == map[] && userDefinedClasses == {}
      ensures totalCouplingCount == map[] && classPairCouplingCount == map[]
      ensures currentClass == None && currentMethod == None
    {
      classMethodsMap := map[];
      totalCouplingCount := map[];
      classPairCouplingCount := map[];
      userDefinedClasses := {};
      currentClass := None;
      currentMethod := None;
      EmptyCountersConsistent();
    }

    /** `visit(TypeDeclaration)`: the declared class becomes the current one;
        it is registered (with an empty method set if it had none) only when
        its package is a project package. `package` is what `getClassPackage`
        returns: the package name, or null for the default package. */
    method VisitTypeDeclaration(name: string, package: Option<string>)
      requires Valid() && IsToken(name)
      modifies this
      ensures Valid()
      ensures currentClass == Some(name) && currentMethod == old(currentMethod)
      ensures totalCouplingCount == old(totalCouplingCount)
      ensures classPairCouplingCount == old(classPairCouplingCount)
      ensures IsProjectPackage(package) ==>
                && classMethodsMap == old(classMethodsMap)[name := MethodsOf(old(classMethodsMap), name)]
                && userDefinedClasses == old(userDefinedClasses) + {name}
      ensures !IsProjectPackage(package) ==>
                classMethodsMap == old(classMethodsMap) && userDefinedClasses == old(userDefinedClasses)
    {
      currentClass := Some(name);
      if !IsProjectPackage(package) {
        return;
      }
      if name !in classMethodsMap {
        classMethodsMap := classMethodsMap[name := {}];
      } else {
        assert classMethodsMap == classMethodsMap[name := classMethodsMap[name]];
      }
      userDefinedClasses := userDefinedClasses + {name};
    }

    /** `endVisit(TypeDeclaration)`: no current class any more. */
    method EndVisitTypeDeclaration()
      requires Valid()
      modifies this`currentClass
      ensures Valid() && currentClass == None
    {
      currentClass := None;
    }

    /** `visit(MethodDeclaration)`: inside a class, the method becomes the
        current one and is added to the class's method set (created if
        missing, even for a class that was not registered); outside a class
        nothing changes, not even `currentMethod`. */
    method VisitMethodDeclaration(name: string)
      requires Valid()
      modifies this
      ensures Valid()
      ensures currentClass == old(currentClass) && userDefinedClasses == old(userDefinedClasses)
      ensures totalCouplingCount == old(totalCouplingCount)
      ensures classPairCouplingCount == old(classPairCouplingCount)
      ensures old(currentClass).None? ==>
                currentMethod == old(currentMethod) && classMethodsMap == old(classMethodsMap)
      ensures old(currentClass).Some? ==>
                var c := old(currentClass).value;
                && currentMethod == Some(name)
                && classMethodsMap == old(classMethodsMap)[c := MethodsOf(old(classMethodsMap), c) + {name}]
    {
      if currentClass.Some? {
        var c := currentClass.value;
        var methodsSet := MethodsOf(classMethodsMap, c);
        currentMethod := Some(name);
        classMethodsMap := classMethodsMap[c := methodsSet + {currentMethod.value}];
      }
    }

    /** `endVisit(MethodDeclaration)`: no current method any more. */
    method EndVisitMethodDeclaration()
      requires Valid()
      modifies this`currentMethod
      ensures Valid() && currentMethod == None
    {
      currentMethod := None;
    }

    /** `visit(MethodInvocation)`: when `CountsInvocation` holds, one is added
        to "TOTAL" and one to the "caller -> callee" counter; otherwise no
        counter changes. The receiver's text is space-free, as JDT
        identifiers and qualified names are. */
    method VisitMethodInvocation(e: Receiver)
      requires Valid() && IsToken(ReceiverText(e))
      modifies this`totalCouplingCount, this`classPairCouplingCount
      ensures Valid()
      ensures CountsInvocation(currentClass, currentMethod, CalledClass(e)) ==>
                && totalCouplingCount == Merge1(old(totalCouplingCount), TotalKey)
                && classPairCouplingCount ==
                     Merge1(old(classPairCouplingCount), RelationKey(currentClass.value, CalledClass(e).value))
      ensures !CountsInvocation(currentClass, currentMethod, CalledClass(e)) ==>
                && totalCouplingCount == old(totalCouplingCount)
                && classPairCouplingCount == old(classPairCouplingCount)
    {
      if currentClass.Some? && currentMethod.Some? {
        var calledClass := CalledClass(e);
        if calledClass.None? || IsBlank(calledClass.value) {
          return;
        }
        if IsUserDefinedClass(calledClass) {
          CountedCalleeIsName(e);
          CountPair(currentClass.value, calledClass.value);
        }
      }
    }

    /** The two `merge` calls of `visit(MethodInvocation)`: one more invocation
        in "TOTAL" and one more for "caller -> callee". */
    method CountPair(caller: string, callee: string)
      requires Valid() && IsToken(caller) && IsToken(callee) && callee != []
      modifies this`totalCouplingCount, this`classPairCouplingCount
      ensures Valid()
      ensures totalCouplingCount == Merge1(old(totalCouplingCount), TotalKey)
      ensures classPairCouplingCount == Merge1(old(classPairCouplingCount), RelationKey(caller, callee))
    {
      CountedInvocationKeepsSync(totalCouplingCount, classPairCouplingCount, caller, callee);
      totalCouplingCount := Merge1(totalCouplingCount, TotalKey);
      var relationKey := RelationKey(caller, callee);
      classPairCouplingCount := Merge1(classPairCouplingCount, relationKey);
    }

    /** `getCouplingMetrics`: visits the pair counters in `order`, splits each
        key into its two class names and writes `count / TOTAL` under both
        directions. The result is symmetric, every weight lies in (0, 1], and
        every class in it is one of the two names of a counted key. */
    method GetCouplingMetrics(order: seq<string>) returns (metrics: map<string, map<string, real>>)
      requires Valid() && IsEnumeration(order, classPairCouplingCount.Keys)
      ensures Denominator(totalCouplingCount) >= 1
      ensures forall t :: 0 <= t < |order| ==> SplitsInTwo(order[t])
      ensures metrics == MetricsOf(order, classPairCouplingCount, Denominator(totalCouplingCount))
      ensures IsSymmetric(metrics)
      ensures forall a, b :: a in metrics && b in metrics[a] ==> 0.0 < metrics[a][b] <= 1.0
      ensures forall a :: a in metrics ==>
                exists key :: key in classPairCouplingCount && a in JavaSplit(key, Arrow)
    {
      var counts := classPairCouplingCount;
      var denom := Denominator(totalCouplingCount);
      DenominatorBoundsCounts(totalCouplingCount, counts);
      ghost var rels := RelationsOf(order, counts, denom);
      metrics := map[];
      var i := 0;
      while i < |order|
        invariant 0 <= i <= |order|
        invariant metrics == BuildMetrics(rels[..i])
      {
        BuildMetricsSnoc(rels, i);
        var key := order[i];
        var classes := JavaSplit(key, Arrow);
        var class1 := classes[0];
        var class2 := classes[1];
        var couplingMetric := counts[key] as real / denom as real;
        metrics := PutNested(metrics, class1, class2, couplingMetric);
        metrics := PutNested(metrics, class2, class1, couplingMetric);
        assert rels[i] == Relation(class1, class2, couplingMetric);
        i := i + 1;
      }
      assert rels[..i] == rels;
      MetricsOfProperties(order, counts, denom);
    }
  }
}
