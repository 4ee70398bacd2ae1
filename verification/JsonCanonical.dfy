/** Canonical JSON (native/src/json.cpp; RFC 8785 sections 3.2.2.2 and 3.2.3): members in UTF-16 order of their
    names, and one text for one meaning. */
module JsonCanonical {
  import opened Ordering
  import opened Utf8
  import opened JsonNumber
  import opened Json
  import opened JsonRoundTrip
  import opened JsonAccepted

  /* ---- Sorting members by name ---- */

  function Insert(m: Member, sorted: seq<Member>): (r: seq<Member>)
    ensures multiset(r) == multiset(sorted) + multiset{m}
  {
    if sorted == [] || !LessUtf16(sorted[0].name, m.name) then [m] + sorted
    else
      assert sorted == [sorted[0]] + sorted[1..];
      [sorted[0]] + Insert(m, sorted[1..])
  }

  function SortByName(members: seq<Member>): (r: seq<Member>)
    ensures multiset(r) == multiset(members)
  {
    if members == [] then []
    else
      assert members == [members[0]] + members[1..];
      Insert(members[0], SortByName(members[1..]))
  }

  ghost predicate InOrder(members: seq<Member>) {
    forall i, j :: 0 <= i < j < |members| ==> LessUtf16(members[i].name, members[j].name)
  }

  ghost predicate ValidNames(members: seq<Member>) {
    forall m :: m in members ==> ValidUtf8(m.name)
  }

  lemma SameMembers(a: seq<Member>, b: seq<Member>)
    requires multiset(a) == multiset(b)
    ensures forall m :: m in a <==> m in b
  {
    forall m
      ensures m in a <==> m in b
    {
      assert m in a <==> m in multiset(a);
      assert m in b <==> m in multiset(b);
    }
  }

  lemma {:induction false} InsertKeepsOrder(m: Member, sorted: seq<Member>)
    requires InOrder(sorted) && ValidNames(sorted) && ValidUtf8(m.name)
    requires forall other :: other in sorted ==> other.name != m.name
    ensures InOrder(Insert(m, sorted))
    decreases |sorted|
  {
    hide LessUtf16, ValidUtf8;
    var r := Insert(m, sorted);
    if sorted == [] {
    } else {
      LessUtf16IsTotal(sorted[0].name, m.name);
      var tail := sorted[1..];
      if LessUtf16(sorted[0].name, m.name) {
        InsertKeepsOrder(m, tail);
        SameMembers(Insert(m, tail), [m] + tail);
        HeadFirst(sorted[0], Insert(m, tail));
      } else {
        forall other | other in sorted
          ensures LessUtf16(m.name, other.name)
        {
          var i :| 0 <= i < |sorted| && sorted[i] == other;
          if i > 0 {
            LessUtf16IsTransitive(m.name, sorted[0].name, other.name);
          }
        }
        HeadFirst(m, sorted);
      }
    }
  }

  lemma LessUtf16IsTransitive(a: Bytes, b: Bytes, c: Bytes)
    requires LessUtf16(a, b) && LessUtf16(b, c)
    ensures LessUtf16(a, c)
  {
    SeqLessTransitive(ToUtf16(a), ToUtf16(b), ToUtf16(c));
  }

  lemma HeadFirst(head: Member, tail: seq<Member>)
    requires InOrder(tail) && forall other :: other in tail ==> LessUtf16(head.name, other.name)
    ensures InOrder([head] + tail)
  {
  }

  lemma {:induction false} SortPutsInOrder(members: seq<Member>)
    requires DistinctNames(members) && ValidNames(members)
    ensures InOrder(SortByName(members))
    decreases |members|
  {
    hide LessUtf16, ValidUtf8;
    if members == [] {
    } else {
      var tail := members[1..];
      SortPutsInOrder(tail);
      SameMembers(SortByName(tail), tail);
      InsertKeepsOrder(members[0], SortByName(tail));
    }
  }

  lemma InOrderMeansDistinct(members: seq<Member>)
    requires InOrder(members) && ValidNames(members)
    ensures DistinctNames(members)
  {
    hide LessUtf16, ValidUtf8;
    forall i, j | 0 <= i < j < |members|
      ensures members[i].name != members[j].name
    {
      LessUtf16IsTotal(members[i].name, members[j].name);
    }
  }

  /** One set of members has one order: whatever algorithm sorts them, the outcome is the same. */
  lemma {:induction false} OrderIsUnique(a: seq<Member>, b: seq<Member>)
    requires InOrder(a) && InOrder(b) && ValidNames(a) && ValidNames(b)
    requires forall m :: m in a <==> m in b
    ensures a == b
    decreases |a|
  {
    hide LessUtf16, ValidUtf8;
    if a == [] {
      if b != [] {
        HasMember(b);
      }
    } else {
      assert a[0] in b && b != [] && b[0] in a;
      SameFirst(a, b);
      InOrderMeansDistinct(a);
      InOrderMeansDistinct(b);
      forall m
        ensures m in a[1..] <==> m in b[1..]
      {
        TailIsRest(a, m);
        TailIsRest(b, m);
      }
      OrderIsUnique(a[1..], b[1..]);
      assert a == [a[0]] + a[1..] && b == [b[0]] + b[1..];
    }
  }

  lemma HasMember(a: seq<Member>)
    requires a != []
    ensures exists m :: m in a
  {
    assert a[0] in a;
  }

  lemma TailIsRest(a: seq<Member>, m: Member)
    requires a != [] && DistinctNames(a)
    ensures m in a[1..] <==> m in a && m != a[0]
  {
  }

  lemma SameFirst(a: seq<Member>, b: seq<Member>)
    requires InOrder(a) && InOrder(b) && a != [] && b != [] && a[0] in b && b[0] in a
    requires ValidNames(a) && ValidNames(b)
    ensures a[0] == b[0]
  {
    hide LessUtf16, ValidUtf8;
    if a[0] != b[0] {
      var i :| 0 <= i < |b| && b[i] == a[0];
      var j :| 0 <= j < |a| && a[j] == b[0];
      LessUtf16IsTotal(a[0].name, b[0].name);
    }
  }

  /* ---- The canonical form ---- */

  /** Every object's members in order, at every level. */
  function Arranged(v: Value): Value {
    match v
    case Array(items) => Array(ArrangedItems(items))
    case Object(members) => Object(SortByName(ArrangedMembers(members)))
    case _ => v
  }

  function ArrangedItems(items: seq<Value>): (r: seq<Value>)
    ensures |r| == |items| && forall i :: 0 <= i < |r| ==> r[i] == Arranged(items[i])
  {
    if items == [] then [] else [Arranged(items[0])] + ArrangedItems(items[1..])
  }

  function ArrangedMembers(members: seq<Member>): (r: seq<Member>)
    ensures |r| == |members|
    ensures forall i :: 0 <= i < |r| ==> r[i].name == members[i].name && r[i].value == Arranged(members[i].value)
  {
    if members == [] then []
    else [Member(members[0].name, Arranged(members[0].value))] + ArrangedMembers(members[1..])
  }

  datatype Canonical = Written(text: Bytes) | Rejected

  /** canonicalize, of a tree and of a text. */
  function CanonicalText(v: Value): Bytes {
    Text(Arranged(v))
  }

  function Canonicalize(s: Bytes): Canonical {
    match Parse(s)
    case Accepted(v) => Written(CanonicalText(v))
    case Refused => Rejected
  }

  /* ---- What a value means: members in no order ---- */

  datatype Meaning =
    | MeansNull
    | MeansBool(flag: bool)
    | MeansNumber(number: NormalDecimal)
    | MeansString(text: Bytes)
    | MeansArray(items: seq<Meaning>)
    | MeansObject(members: map<Bytes, Meaning>)

  function MeaningOf(v: Value): Meaning {
    match v
    case Null => MeansNull
    case Bool(flag) => MeansBool(flag)
    case Number(d) => MeansNumber(d)
    case String(text) => MeansString(text)
    case Array(items) => MeansArray(ItemsMeaning(items))
    case Object(members) => MeansObject(MembersMeaning(members))
  }

  function ItemsMeaning(items: seq<Value>): (r: seq<Meaning>)
    ensures |r| == |items| && forall i :: 0 <= i < |r| ==> r[i] == MeaningOf(items[i])
  {
    if items == [] then [] else [MeaningOf(items[0])] + ItemsMeaning(items[1..])
  }

  function MembersMeaning(members: seq<Member>): map<Bytes, Meaning> {
    if members == [] then map[]
    else MembersMeaning(members[1..])[members[0].name := MeaningOf(members[0].value)]
  }

  lemma {:induction false} MeaningLookup(members: seq<Member>)
    requires DistinctNames(members)
    ensures forall m :: m in members ==>
            m.name in MembersMeaning(members) && MembersMeaning(members)[m.name] == MeaningOf(m.value)
    ensures forall name :: name in MembersMeaning(members) ==> exists m :: m in members && m.name == name
    decreases |members|
  {
    hide MeaningOf;
    if members == [] {
    } else {
      MeaningLookup(members[1..]);
      assert forall m :: m in members ==> m == members[0] || m in members[1..];
      assert forall m :: m in members[1..] ==> m in members && m.name != members[0].name;
      assert members[0] in members;
    }
  }

  /* ---- Arranging keeps what a text can carry, and what it means ---- */

  lemma ArrangedNames(members: seq<Member>)
    requires DistinctNames(members) && ValidNames(members)
    ensures var arranged := ArrangedMembers(members);
            && DistinctNames(arranged) && ValidNames(arranged)
            && InOrder(SortByName(arranged)) && ValidNames(SortByName(arranged)) && DistinctNames(SortByName(arranged))
            && forall m :: m in SortByName(arranged) <==> m in arranged
  {
    hide LessUtf16, ValidUtf8, Arranged;
    var arranged := ArrangedMembers(members);
    forall m | m in arranged
      ensures ValidUtf8(m.name)
    {
      var i :| 0 <= i < |arranged| && arranged[i] == m;
      assert members[i] in members;
    }
    SortPutsInOrder(arranged);
    SameMembers(SortByName(arranged), arranged);
    InOrderMeansDistinct(SortByName(arranged));
  }

  lemma {:induction false} ArrangedFits(v: Value, depth: nat)
    requires WellFormed(v, depth)
    ensures WellFormed(Arranged(v), depth)
    decreases v
  {
    hide ValidUtf8, LessUtf16, SortByName, InOrder;
    match v
    case Array(items) =>
      forall i | 0 <= i < |items|
        ensures WellFormed(ArrangedItems(items)[i], depth + 1)
      {
        assert items[i] in items;
        ArrangedFits(items[i], depth + 1);
      }
    case Object(members) =>
      forall i | 0 <= i < |members|
        ensures WellFormed(ArrangedMembers(members)[i].value, depth + 1)
      {
        assert members[i] in members;
        ArrangedFits(members[i].value, depth + 1);
      }
      ArrangedNames(members);
    case _ =>
  }

  lemma {:induction false} ArrangedMeansTheSame(v: Value, depth: nat)
    requires WellFormed(v, depth)
    ensures MeaningOf(Arranged(v)) == MeaningOf(v)
    decreases v
  {
    hide ValidUtf8, LessUtf16;
    match v
    case Array(items) =>
      forall i | 0 <= i < |items|
        ensures MeaningOf(ArrangedItems(items)[i]) == MeaningOf(items[i])
      {
        assert items[i] in items;
        ArrangedMeansTheSame(items[i], depth + 1);
      }
      assert ItemsMeaning(ArrangedItems(items)) == ItemsMeaning(items);
    case Object(members) =>
      forall i | 0 <= i < |members|
        ensures MeaningOf(ArrangedMembers(members)[i].value) == MeaningOf(members[i].value)
      {
        assert members[i] in members;
        ArrangedMeansTheSame(members[i].value, depth + 1);
      }
      SortedMeansTheSame(members);
    case _ =>
  }

  lemma SortedMeansTheSame(members: seq<Member>)
    requires DistinctNames(members) && ValidNames(members)
    requires forall i :: 0 <= i < |members| ==>
             MeaningOf(ArrangedMembers(members)[i].value) == MeaningOf(members[i].value)
    ensures MembersMeaning(SortByName(ArrangedMembers(members))) == MembersMeaning(members)
  {
    hide ValidUtf8, LessUtf16, Arranged, MeaningOf, SortByName, InOrder, MembersMeaning, Carries, DistinctNames,
         ValidNames, ArrangedMembers;
    var sorted := SortByName(ArrangedMembers(members));
    ArrangedNames(members);
    PairwiseCarries(members, ArrangedMembers(members));
    PairwiseCarries(ArrangedMembers(members), members);
    ReorderedCarries(members, ArrangedMembers(members), sorted);
    CarriedBothWays(members, sorted);
  }

  lemma CarriedBothWays(a: seq<Member>, b: seq<Member>)
    requires DistinctNames(a) && DistinctNames(b) && Carries(a, b) && Carries(b, a)
    ensures MembersMeaning(a) == MembersMeaning(b)
  {
    hide MembersMeaning, Carries, DistinctNames;
    MeaningIsCarried(a, b);
    MeaningIsCarried(b, a);
  }

  /** Every member of a has one in b with its name and meaning. */
  ghost predicate Carries(a: seq<Member>, b: seq<Member>) {
    forall m :: m in a ==> exists n :: n in b && n.name == m.name && MeaningOf(n.value) == MeaningOf(m.value)
  }

  lemma PairwiseCarries(a: seq<Member>, b: seq<Member>)
    requires |a| == |b|
    requires forall i :: 0 <= i < |a| ==> a[i].name == b[i].name && MeaningOf(a[i].value) == MeaningOf(b[i].value)
    ensures Carries(a, b)
  {
    hide MeaningOf;
  }

  lemma ReorderedCarries(a: seq<Member>, b: seq<Member>, c: seq<Member>)
    requires Carries(a, b) && Carries(b, a) && forall m :: m in c <==> m in b
    ensures Carries(a, c) && Carries(c, a)
  {
    hide MeaningOf;
  }

  lemma MeaningIsCarried(a: seq<Member>, b: seq<Member>)
    requires DistinctNames(a) && DistinctNames(b) && Carries(a, b)
    ensures forall name :: name in MembersMeaning(a) ==>
              name in MembersMeaning(b) && MembersMeaning(b)[name] == MembersMeaning(a)[name]
  {
    hide MeaningOf, MembersMeaning;
    MeaningLookup(a);
    MeaningLookup(b);
    forall name | name in MembersMeaning(a)
      ensures name in MembersMeaning(b) && MembersMeaning(b)[name] == MembersMeaning(a)[name]
    {
      var m :| m in a && m.name == name;
      var n :| n in b && n.name == m.name && MeaningOf(n.value) == MeaningOf(m.value);
    }
  }

  /* ---- One meaning has one arrangement ---- */

  lemma {:induction false} SameMeaningSameArrangement(v: Value, w: Value, depth: nat)
    requires WellFormed(v, depth) && WellFormed(w, depth) && MeaningOf(v) == MeaningOf(w)
    ensures Arranged(v) == Arranged(w)
    decreases v
  {
    hide ValidUtf8, LessUtf16;
    match v
    case Array(items) =>
      forall i | 0 <= i < |items|
        ensures Arranged(items[i]) == Arranged(w.items[i])
      {
        assert items[i] in items && w.items[i] in w.items;
        assert ItemsMeaning(items)[i] == ItemsMeaning(w.items)[i];
        SameMeaningSameArrangement(items[i], w.items[i], depth + 1);
      }
      assert ArrangedItems(items) == ArrangedItems(w.items);
    case Object(members) =>
      forall i, j | 0 <= i < |members| && 0 <= j < |w.members| && members[i].name == w.members[j].name
        ensures Arranged(members[i].value) == Arranged(w.members[j].value)
      {
        MeaningLookup(members);
        MeaningLookup(w.members);
        assert members[i] in members && w.members[j] in w.members;
        SameMeaningSameArrangement(members[i].value, w.members[j].value, depth + 1);
      }
      SameMembersSameOrder(members, w.members);
    case _ =>
  }

  lemma SameMembersSameOrder(a: seq<Member>, b: seq<Member>)
    requires DistinctNames(a) && ValidNames(a) && DistinctNames(b) && ValidNames(b)
    requires MembersMeaning(a) == MembersMeaning(b)
    requires forall i, j :: 0 <= i < |a| && 0 <= j < |b| && a[i].name == b[j].name ==>
             Arranged(a[i].value) == Arranged(b[j].value)
    ensures SortByName(ArrangedMembers(a)) == SortByName(ArrangedMembers(b))
  {
    hide ValidUtf8, LessUtf16, Arranged, SortByName, InOrder;
    ArrangedNames(a);
    ArrangedNames(b);
    SameArrangedMembers(a, b);
    SameArrangedMembers(b, a);
    OrderIsUnique(SortByName(ArrangedMembers(a)), SortByName(ArrangedMembers(b)));
  }

  lemma SameArrangedMembers(a: seq<Member>, b: seq<Member>)
    requires DistinctNames(a) && DistinctNames(b) && MembersMeaning(a) == MembersMeaning(b)
    requires forall i, j :: 0 <= i < |a| && 0 <= j < |b| && a[i].name == b[j].name ==>
             Arranged(a[i].value) == Arranged(b[j].value)
    ensures forall m :: m in ArrangedMembers(a) ==> m in ArrangedMembers(b)
  {
    hide DistinctNames, MembersMeaning, Arranged, MeaningOf;
    forall m | m in ArrangedMembers(a)
      ensures m in ArrangedMembers(b)
    {
      var i :| 0 <= i < |a| && ArrangedMembers(a)[i] == m;
      var j := NamesakeIndex(a, b, i);
      assert ArrangedMembers(b)[j] == m;
    }
  }

  lemma NamesakeIndex(a: seq<Member>, b: seq<Member>, i: nat) returns (j: nat)
    requires DistinctNames(a) && DistinctNames(b) && MembersMeaning(a) == MembersMeaning(b) && i < |a|
    ensures j < |b| && b[j].name == a[i].name
  {
    hide MembersMeaning, MeaningOf;
    MeaningLookup(a);
    MeaningLookup(b);
    assert a[i] in a;
    var other :| other in b && other.name == a[i].name;
    j :| 0 <= j < |b| && b[j] == other;
  }

  /* ---- The results ---- */

  /** Printing and reading back a canonical text gives the arranged value. */
  lemma CanonicalIsAccepted(v: Value)
    requires WellFormed(v, 0)
    ensures Parse(CanonicalText(v)) == Accepted(Arranged(v))
    ensures WellFormed(Arranged(v), 0) && MeaningOf(Arranged(v)) == MeaningOf(v)
  {
    hide Parse, WellFormed, Text;
    ArrangedFits(v, 0);
    ArrangedMeansTheSame(v, 0);
    PrintedIsAccepted(Arranged(v));
  }

  /** Canonicalizing a second time changes nothing. */
  lemma CanonicalizingTwice(s: Bytes)
    requires Canonicalize(s).Written?
    ensures Canonicalize(Canonicalize(s).text) == Canonicalize(s)
  {
    hide Parse, WellFormed, Text, Arranged;
    AcceptedIsWellFormed(s);
    var v := Parse(s).value;
    CanonicalIsAccepted(v);
    SameMeaningSameArrangement(Arranged(v), v, 0);
  }

  /** Two accepted texts have one canonical text exactly when they mean the same. */
  lemma CanonicalIffSameMeaning(s: Bytes, t: Bytes)
    requires Parse(s).Accepted? && Parse(t).Accepted?
    ensures Canonicalize(s) == Canonicalize(t) <==> MeaningOf(Parse(s).value) == MeaningOf(Parse(t).value)
  {
    hide Parse, WellFormed, Text, Arranged, MeaningOf;
    AcceptedIsWellFormed(s);
    AcceptedIsWellFormed(t);
    var v, w := Parse(s).value, Parse(t).value;
    CanonicalIsAccepted(v);
    CanonicalIsAccepted(w);
    if MeaningOf(v) == MeaningOf(w) {
      SameMeaningSameArrangement(v, w, 0);
    }
  }
}
