/** MemberSorter: reorders the members of a struct type together with their
    member decorations, builtins last, then by a sorting aspect. The sort of
    the standard library it relies on is not stable, so all that is promised
    of the result is that it is a rearrangement of the input pairs that the
    comparator considers ordered. */
module MemberSort {
  import opened Text
  import opened Ir

  datatype SortAspect = Location | LocationReverse | Offset | OffsetThenLocationReverse | Alphabetical

  /** MemberSorter::operator(): member decoration d1 goes before d2. A
      non-builtin goes before a builtin; members of equal builtin status
      compare by the aspect. Alphabetical compares aliases in DESCENDING
      order, as the source writes it. */
  predicate Less(aspect: SortAspect, d1: Dec, d2: Dec) {
    if d1.builtin != d2.builtin then d2.builtin
    else
      match aspect
      case Location => d1.location < d2.location
      case LocationReverse => d1.location > d2.location
      case Offset => d1.offset < d2.offset
      case OffsetThenLocationReverse =>
        d1.offset < d2.offset || (d1.offset == d2.offset && d1.location > d2.location)
      case Alphabetical => StringLess(d2.alias, d1.alias)
  }

  /** The comparator is a strict weak ordering, which is what std::sort
      requires of it: irreflexive, transitive, and "not before" is
      transitive too. */
  lemma LessIrreflexive(aspect: SortAspect, d: Dec)
    ensures !Less(aspect, d, d)
  {
    StringLessIrreflexive(d.alias);
  }

  lemma LessTransitive(aspect: SortAspect, d1: Dec, d2: Dec, d3: Dec)
    requires Less(aspect, d1, d2) && Less(aspect, d2, d3)
    ensures Less(aspect, d1, d3)
  {
    if aspect == Alphabetical && d1.builtin == d2.builtin == d3.builtin {
      StringLessTransitive(d3.alias, d2.alias, d1.alias);
    }
  }

  lemma LessNegativelyTransitive(aspect: SortAspect, d1: Dec, d2: Dec, d3: Dec)
    requires Less(aspect, d1, d3)
    ensures Less(aspect, d1, d2) || Less(aspect, d2, d3)
  {
    if aspect == Alphabetical && d1.builtin == d2.builtin == d3.builtin && d2.alias != d1.alias {
      StringLessTotal(d1.alias, d2.alias);
      if StringLess(d1.alias, d2.alias) {
        StringLessTransitive(d3.alias, d1.alias, d2.alias);
      }
    }
  }

  /** One struct member: its type and its member decoration. */
  datatype Member = Member(typeId: Id, dec: Dec)

  /** No member is placed after one the comparator puts after it. */
  predicate SortedBy(aspect: SortAspect, s: seq<Member>) {
    forall i, j :: 0 <= i < j < |s| ==> !Less(aspect, s[j].dec, s[i].dec)
  }

  function TypeIds(s: seq<Member>): (r: seq<Id>)
    ensures |r| == |s| && forall i :: 0 <= i < |s| ==> r[i] == s[i].typeId
  {
    seq(|s|, i requires 0 <= i < |s| => s[i].typeId)
  }

  function Decs(s: seq<Member>): (r: seq<Dec>)
    ensures |r| == |s| && forall i :: 0 <= i < |s| ==> r[i] == s[i].dec
  {
    seq(|s|, i requires 0 <= i < |s| => s[i].dec)
  }

  /** Pairs each member type with the member decoration at the same index. */
  function Zip(types: seq<Id>, decs: seq<Dec>): (r: seq<Member>)
    requires |decs| >= |types|
    ensures TypeIds(r) == types && Decs(r) == decs[..|types|]
  {
    seq(|types|, i requires 0 <= i < |types| => Member(types[i], decs[i]))
  }

  /** A member that no element of a sorted list goes before may lead it. */
  lemma SortedCons(aspect: SortAspect, m: Member, s: seq<Member>)
    requires SortedBy(aspect, s)
    requires forall k :: 0 <= k < |s| ==> !Less(aspect, s[k].dec, m.dec)
    ensures SortedBy(aspect, [m] + s)
  {
    var r := [m] + s;
    forall i, j | 0 <= i < j < |r|
      ensures !Less(aspect, r[j].dec, r[i].dec)
    {
      if i > 0 {
        assert r[i] == s[i - 1] && r[j] == s[j - 1];
      } else {
        assert r[j] == s[j - 1];
      }
    }
  }

  /** If the head of a sorted list does not go before m, nothing in it does. */
  lemma {:induction false} HeadBoundsAll(aspect: SortAspect, m: Member, s: seq<Member>)
    requires SortedBy(aspect, s) && s != [] && !Less(aspect, s[0].dec, m.dec)
    ensures forall k :: 0 <= k < |s| ==> !Less(aspect, s[k].dec, m.dec)
  {
    forall k | 0 < k < |s|
      ensures !Less(aspect, s[k].dec, m.dec)
    {
      assert !Less(aspect, s[k].dec, s[0].dec);
      if Less(aspect, s[k].dec, m.dec) {
        LessNegativelyTransitive(aspect, s[k].dec, s[0].dec, m.dec);
      }
    }
  }

  /** The head stays in front when m, which goes after it, joins the rest. */
  lemma {:induction false} HeadStaysFirst(aspect: SortAspect, h: Member, m: Member, tail: seq<Member>, rest: seq<Member>)
    requires Less(aspect, h.dec, m.dec)
    requires forall k :: 0 <= k < |tail| ==> !Less(aspect, tail[k].dec, h.dec)
    requires multiset(rest) == multiset(tail) + multiset{m}
    ensures forall k :: 0 <= k < |rest| ==> !Less(aspect, rest[k].dec, h.dec)
  {
    forall k | 0 <= k < |rest|
      ensures !Less(aspect, rest[k].dec, h.dec)
    {
      assert rest[k] in multiset(rest);
      if rest[k] == m {
        if Less(aspect, m.dec, h.dec) {
          LessTransitive(aspect, h.dec, m.dec, h.dec);
          LessIrreflexive(aspect, h.dec);
        }
      } else {
        assert rest[k] in multiset(tail);
        var t :| 0 <= t < |tail| && tail[t] == rest[k];
      }
    }
  }

  /** Places m in front of the first member the comparator does not put
      before it. */
  function Insert(aspect: SortAspect, m: Member, s: seq<Member>): (r: seq<Member>)
    ensures |r| == |s| + 1 && multiset(r) == multiset(s) + multiset{m}
    decreases |s|
  {
    if s == [] || !Less(aspect, s[0].dec, m.dec) then [m] + s
    else
      assert s == [s[0]] + s[1..];
      [s[0]] + Insert(aspect, m, s[1..])
  }

  /** Inserting into a sorted list keeps it sorted. */
  lemma {:induction false} InsertSorted(aspect: SortAspect, m: Member, s: seq<Member>)
    requires SortedBy(aspect, s)
    ensures SortedBy(aspect, Insert(aspect, m, s))
    decreases |s|
  {
    if s == [] || !Less(aspect, s[0].dec, m.dec) {
      if s != [] {
        HeadBoundsAll(aspect, m, s);
      }
      SortedCons(aspect, m, s);
    } else {
      var tail := s[1..];
      var rest := Insert(aspect, m, tail);
      assert Insert(aspect, m, s) == [s[0]] + rest;
      assert SortedBy(aspect, tail) && forall k :: 0 <= k < |tail| ==> !Less(aspect, tail[k].dec, s[0].dec) by {
        assert forall k :: 0 <= k < |tail| ==> tail[k] == s[k + 1];
      }
      InsertSorted(aspect, m, tail);
      HeadStaysFirst(aspect, s[0], m, tail, rest);
      SortedCons(aspect, s[0], rest);
    }
  }

  /** Insertion sort under the comparator. */
  function SortMembers(aspect: SortAspect, s: seq<Member>): (r: seq<Member>)
    ensures |r| == |s| && multiset(r) == multiset(s)
    ensures SortedBy(aspect, r)
    decreases |s|
  {
    if s == [] then []
    else
      var sortedTail := SortMembers(aspect, s[1..]);
      var r := Insert(aspect, s[0], sortedTail);
      assert s == [s[0]] + s[1..];
      InsertSorted(aspect, s[0], sortedTail);
      r
  }

  /** No member decoration is placed after one the comparator puts after it. */
  predicate DecsSorted(aspect: SortAspect, ds: seq<Dec>) {
    forall i, j :: 0 <= i < j < |ds| ==> !Less(aspect, ds[j], ds[i])
  }

  /** The sorted member lists of a type. */
  datatype Sorted = Sorted(memberTypes: seq<Id>, members: seq<Dec>)

  /** MemberSorter::sort: one rearrangement applied to both the member types
      and the first |member types| member decorations; the member
      decorations beyond that count stay where they are. */
  function Sort(aspect: SortAspect, memberTypes: seq<Id>, members: seq<Dec>): (r: Sorted)
    requires |members| >= |memberTypes|
    ensures |r.memberTypes| == |memberTypes| && |r.members| == |members|
    ensures multiset(Zip(r.memberTypes, r.members)) == multiset(Zip(memberTypes, members))
    ensures r.members[|memberTypes|..] == members[|memberTypes|..]
    ensures DecsSorted(aspect, r.members[..|memberTypes|])
  {
    var n := |memberTypes|;
    var sorted := SortMembers(aspect, Zip(memberTypes, members));
    var r := Sorted(TypeIds(sorted), Decs(sorted) + members[n..]);
    assert Zip(r.memberTypes, r.members) == sorted;
    r
  }

  /** Builtins are always placed after every non-builtin. */
  lemma BuiltinsLast(aspect: SortAspect, ds: seq<Dec>)
    requires DecsSorted(aspect, ds)
    ensures forall i, j :: 0 <= i < j < |ds| && ds[i].builtin ==> ds[j].builtin
  {
    forall i, j | 0 <= i < j < |ds| && ds[i].builtin
      ensures ds[j].builtin
    {
      assert !Less(aspect, ds[j], ds[i]);
    }
  }

  /** Members of equal builtin status end up ordered by the aspect's key:
      ascending locations, descending locations, ascending offsets, offsets
      then descending locations, or descending aliases. */
  predicate KeyOrdered(aspect: SortAspect, d1: Dec, d2: Dec) {
    match aspect
    case Location => d1.location <= d2.location
    case LocationReverse => d1.location >= d2.location
    case Offset => d1.offset <= d2.offset
    case OffsetThenLocationReverse => d1.offset < d2.offset || (d1.offset == d2.offset && d1.location >= d2.location)
    case Alphabetical => d1.alias == d2.alias || StringLess(d2.alias, d1.alias)
  }

  /** Not going after a member of equal builtin status means being ordered
      before it by the key. */
  lemma NotLessIsKeyOrdered(aspect: SortAspect, d1: Dec, d2: Dec)
    requires d1.builtin == d2.builtin && !Less(aspect, d2, d1)
    ensures KeyOrdered(aspect, d1, d2)
  {
    if aspect == Alphabetical && d1.alias != d2.alias {
      StringLessTotal(d1.alias, d2.alias);
    }
  }

  lemma AspectOrder(aspect: SortAspect, ds: seq<Dec>)
    requires DecsSorted(aspect, ds)
    ensures forall i, j :: 0 <= i < j < |ds| && ds[i].builtin == ds[j].builtin ==> KeyOrdered(aspect, ds[i], ds[j])
  {
    forall i, j | 0 <= i < j < |ds| && ds[i].builtin == ds[j].builtin
      ensures KeyOrdered(aspect, ds[i], ds[j])
    {
      NotLessIsKeyOrdered(aspect, ds[i], ds[j]);
    }
  }
}
