/**
  Discovery of configuration paths (utils/print-introspected-doxygen.cc, StaticInformation):
  a recursive walk over the registered types, along attributes, subtypes and aggregations.
*/
module ConfigPaths {
  import opened PairGraph
  import opened Seqs

  /** A TypeId is its index in the registry. */
  type TypeId = nat

  datatype Checker = Pointer(pointee: TypeId) | Container(item: TypeId) | OtherChecker

  datatype Attribute = Attribute(name: string, checker: Checker)

  /** `ancestors` is the answer to IsChildOf for this type. */
  datatype TypeInfo = TypeInfo(name: string, attributes: seq<Attribute>, ancestors: set<TypeId>)

  /** The type registry, with the TypeId of ns3::Object. */
  datatype Registry = Registry(types: seq<TypeInfo>, objectType: TypeId)

  datatype Link = Link(name: string, target: TypeId)

  // -------------------------------------------------------------------- the type graph

  /** The link an attribute gives rise to, if any. A pointer to a plain Object is not followed. */
  function AttributeLink(reg: Registry, a: Attribute): seq<Link> {
    match a.checker
    case Pointer(p) => if p == reg.objectType then [] else [Link(a.name, p)]
    case Container(t) => [Link(a.name + "/[i]", t)]
    case OtherChecker => []
  }

  /** The link to a registered type, if it is a subtype. */
  function ChildLink(reg: Registry, tid: TypeId, j: nat): seq<Link>
    requires j < |reg.types|
  {
    if tid in reg.types[j].ancestors then [Link("$" + reg.types[j].name, j)] else []
  }

  function NameOf(reg: Registry, tid: TypeId): string {
    if tid < |reg.types| then reg.types[tid].name else ""
  }

  /** The link to the other side of an aggregation, if tid is one side of it. */
  function AggregateLink(reg: Registry, tid: TypeId, pair: (TypeId, TypeId)): seq<Link> {
    if pair.0 == tid || pair.1 == tid then
      var other := if pair.1 == tid then pair.0 else pair.1;
      [Link("$" + NameOf(reg, other), other)]
    else []
  }

  ghost function AttributeLinks(reg: Registry, attrs: seq<Attribute>): seq<Link> {
    if attrs == [] then []
    else AttributeLinks(reg, attrs[..|attrs| - 1]) + AttributeLink(reg, attrs[|attrs| - 1])
  }

  ghost function ChildLinks(reg: Registry, tid: TypeId, n: nat): seq<Link>
    requires n <= |reg.types|
  {
    if n == 0 then [] else ChildLinks(reg, tid, n - 1) + ChildLink(reg, tid, n - 1)
  }

  ghost function AggregateLinks(reg: Registry, tid: TypeId, aggregates: seq<(TypeId, TypeId)>): seq<Link> {
    if aggregates == [] then []
    else
      AggregateLinks(reg, tid, aggregates[..|aggregates| - 1])
      + AggregateLink(reg, tid, aggregates[|aggregates| - 1])
  }

  lemma AttributeLinksStep(reg: Registry, attrs: seq<Attribute>, i: nat)
    requires i < |attrs|
    ensures AttributeLinks(reg, attrs[..i + 1]) == AttributeLinks(reg, attrs[..i]) + AttributeLink(reg, attrs[i])
  {
    assert attrs[..i + 1][..i] == attrs[..i];
  }

  lemma AttributeTarget(g: TypeGraph, tid: TypeId, i: nat)
    requires g.Valid() && tid < |g.reg.types| && i < |g.reg.types[tid].attributes|
    ensures forall l :: l in AttributeLink(g.reg, g.reg.types[tid].attributes[i]) ==> l.target < |g.reg.types|
  {
  }

  lemma AggregateLinksStep(reg: Registry, tid: TypeId, pairs: seq<(TypeId, TypeId)>, k: nat)
    requires k < |pairs|
    ensures AggregateLinks(reg, tid, pairs[..k + 1]) ==
      AggregateLinks(reg, tid, pairs[..k]) + AggregateLink(reg, tid, pairs[k])
  {
    assert pairs[..k + 1][..k] == pairs[..k];
  }

  ghost function UpTo(n: nat): (s: set<TypeId>)
    ensures forall t: TypeId :: t in s <==> t < n
  {
    if n == 0 then {} else UpTo(n - 1) + {n - 1}
  }

  /** The registry and the aggregations together. */
  datatype TypeGraph = TypeGraph(reg: Registry, aggregates: seq<(TypeId, TypeId)>) {

    ghost function Types(): set<TypeId> {
      UpTo(|reg.types|)
    }

    /** The links out of tid, in the order in which they are followed. */
    ghost function Links(tid: TypeId): seq<Link> {
      if tid >= |reg.types| then [] else
        AttributeLinks(reg, reg.types[tid].attributes) + ChildLinks(reg, tid, |reg.types|)
        + AggregateLinks(reg, tid, aggregates)
    }

    /** Every TypeId mentioned is registered. */
    ghost predicate Valid() {
      && (forall t, i :: 0 <= t < |reg.types| && 0 <= i < |reg.types[t].attributes| ==>
            match reg.types[t].attributes[i].checker
            case Pointer(p) => p < |reg.types|
            case Container(p) => p < |reg.types|
            case OtherChecker => true)
      && (forall i :: 0 <= i < |aggregates| ==> aggregates[i].0 < |reg.types| && aggregates[i].1 < |reg.types|)
    }
  }

  // ----------------------------------------------------------- where the links come from

  /** What a link is followed for: an attribute, a registered type, or an aggregation. */
  datatype Origin = OfAttribute(i: nat) | OfType(j: nat) | OfAggregate(k: nat)

  /** Attributes come first, then registered types, then aggregations, each in their order. */
  ghost predicate Earlier(o: Origin, p: Origin) {
    match (o, p)
    case (OfAttribute(a), OfAttribute(b)) => a < b
    case (OfAttribute(_), _) => true
    case (OfType(a), OfType(b)) => a < b
    case (OfType(_), OfAggregate(_)) => true
    case (OfAggregate(a), OfAggregate(b)) => a < b
    case _ => false
  }

  /**
    A pointer attribute, except one to a plain Object, is followed under its name; a container under its
    name and an index; a registered subtype and the other side of an aggregation under their type's name.
  */
  ghost predicate Gives(g: TypeGraph, tid: TypeId, o: Origin, l: Link)
    requires g.Valid() && tid < |g.reg.types|
  {
    var types, attrs := g.reg.types, g.reg.types[tid].attributes;
    match o
    case OfAttribute(i) =>
      i < |attrs| &&
      (|| (attrs[i].checker == Pointer(l.target) && l.target != g.reg.objectType && l.name == attrs[i].name)
       || (attrs[i].checker == Container(l.target) && l.name == attrs[i].name + "/[i]"))
    case OfType(j) =>
      j < |types| && l.target == j && tid in types[j].ancestors && l.name == "$" + types[j].name
    case OfAggregate(k) =>
      && k < |g.aggregates| && (g.aggregates[k] == (tid, l.target) || g.aggregates[k] == (l.target, tid))
      && l.name == "$" + types[l.target].name
  }

  ghost predicate IsFollowed(g: TypeGraph, tid: TypeId, o: Origin)
    requires g.Valid() && tid < |g.reg.types|
  {
    exists l :: Gives(g, tid, o, l)
  }

  /** The links in question, and for each of them where it comes from, in order. */
  ghost predicate Explains(g: TypeGraph, tid: TypeId, os: seq<Origin>, links: seq<Link>)
    requires g.Valid() && tid < |g.reg.types|
  {
    |os| == |links| && Ordered(os) && forall i :: 0 <= i < |os| ==> Gives(g, tid, os[i], links[i])
  }

  ghost predicate Ordered(os: seq<Origin>) {
    forall i, j :: 0 <= i < j < |os| ==> Earlier(os[i], os[j])
  }

  /** The link for one origin, if any. */
  ghost function LinkFor(g: TypeGraph, tid: TypeId, o: Origin): seq<Link>
    requires tid < |g.reg.types|
  {
    var types, attrs := g.reg.types, g.reg.types[tid].attributes;
    match o
    case OfAttribute(i) => if i < |attrs| then AttributeLink(g.reg, attrs[i]) else []
    case OfType(j) => if j < |types| then ChildLink(g.reg, tid, j) else []
    case OfAggregate(k) => if k < |g.aggregates| then AggregateLink(g.reg, tid, g.aggregates[k]) else []
  }

  lemma LinkForIsGiven(g: TypeGraph, tid: TypeId, o: Origin, l: Link)
    requires g.Valid() && tid < |g.reg.types|
    ensures Gives(g, tid, o, l) <==> LinkFor(g, tid, o) == [l]
    ensures |LinkFor(g, tid, o)| <= 1
  {
  }

  /** The links for a list of origins, and the origins that have one. */
  ghost function LinksFor(g: TypeGraph, tid: TypeId, os: seq<Origin>): seq<Link>
    requires tid < |g.reg.types|
  {
    if os == [] then [] else LinksFor(g, tid, os[..|os| - 1]) + LinkFor(g, tid, os[|os| - 1])
  }

  ghost function Linked(g: TypeGraph, tid: TypeId, os: seq<Origin>): seq<Origin>
    requires tid < |g.reg.types|
  {
    if os == [] then [] else
      var o := os[|os| - 1];
      Linked(g, tid, os[..|os| - 1]) + if LinkFor(g, tid, o) == [] then [] else [o]
  }

  lemma {:induction false} LinkedAre(g: TypeGraph, tid: TypeId, os: seq<Origin>, o: Origin)
    requires tid < |g.reg.types|
    ensures o in Linked(g, tid, os) <==> o in os && LinkFor(g, tid, o) != []
  {
    if os != [] {
      InitLast(os);
      LinkedAre(g, tid, os[..|os| - 1], o);
    }
  }

  lemma {:induction false} LinkedExplain(g: TypeGraph, tid: TypeId, os: seq<Origin>)
    requires g.Valid() && tid < |g.reg.types| && Ordered(os)
    ensures Explains(g, tid, Linked(g, tid, os), LinksFor(g, tid, os))
  {
    if os != [] {
      var init, o := os[..|os| - 1], os[|os| - 1];
      var linked, links, link := Linked(g, tid, init), LinksFor(g, tid, init), LinkFor(g, tid, o);
      LinkedExplain(g, tid, init);
      forall i | 0 <= i < |linked| ensures Earlier(linked[i], o) {
        LinkedAre(g, tid, init, linked[i]);
      }
      LinkForIsGiven(g, tid, o, if link == [] then Link("", 0) else link[0]);
      if link != [] {
        assert link == [link[0]];
        ExplainsOneMore(g, tid, linked, links, o, link[0]);
      }
    }
  }

  lemma ExplainsOneMore(g: TypeGraph, tid: TypeId, os: seq<Origin>, links: seq<Link>, o: Origin, l: Link)
    requires g.Valid() && tid < |g.reg.types| && Explains(g, tid, os, links) && Gives(g, tid, o, l)
    requires forall i :: 0 <= i < |os| ==> Earlier(os[i], o)
    ensures Explains(g, tid, os + [o], links + [l])
  {
  }

  lemma {:induction false} LinksForConcat(g: TypeGraph, tid: TypeId, a: seq<Origin>, b: seq<Origin>)
    requires tid < |g.reg.types|
    ensures LinksFor(g, tid, a + b) == LinksFor(g, tid, a) + LinksFor(g, tid, b)
  {
    if b == [] {
      assert a + b == a;
    } else {
      ConcatInit(a, b);
      LinksForConcat(g, tid, a, b[..|b| - 1]);
      Assoc(LinksFor(g, tid, a), LinksFor(g, tid, b[..|b| - 1]), LinkFor(g, tid, b[|b| - 1]));
    }
  }

  ghost function FirstAttributes(n: nat): seq<Origin> {
    seq(n, i requires 0 <= i < n => OfAttribute(i))
  }

  ghost function FirstTypes(n: nat): seq<Origin> {
    seq(n, j requires 0 <= j < n => OfType(j))
  }

  ghost function FirstAggregates(n: nat): seq<Origin> {
    seq(n, k requires 0 <= k < n => OfAggregate(k))
  }

  lemma {:induction false} AttributesLinked(g: TypeGraph, tid: TypeId, n: nat)
    requires tid < |g.reg.types| && n <= |g.reg.types[tid].attributes|
    ensures LinksFor(g, tid, FirstAttributes(n)) == AttributeLinks(g.reg, g.reg.types[tid].attributes[..n])
  {
    if n > 0 {
      AttributesLinked(g, tid, n - 1);
      assert FirstAttributes(n)[..n - 1] == FirstAttributes(n - 1);
      AttributeLinksStep(g.reg, g.reg.types[tid].attributes, n - 1);
    }
  }

  lemma {:induction false} TypesLinked(g: TypeGraph, tid: TypeId, n: nat)
    requires tid < |g.reg.types| && n <= |g.reg.types|
    ensures LinksFor(g, tid, FirstTypes(n)) == ChildLinks(g.reg, tid, n)
  {
    if n > 0 {
      TypesLinked(g, tid, n - 1);
      assert FirstTypes(n)[..n - 1] == FirstTypes(n - 1);
    }
  }

  lemma {:induction false} AggregatesLinked(g: TypeGraph, tid: TypeId, n: nat)
    requires tid < |g.reg.types| && n <= |g.aggregates|
    ensures LinksFor(g, tid, FirstAggregates(n)) == AggregateLinks(g.reg, tid, g.aggregates[..n])
  {
    if n > 0 {
      AggregatesLinked(g, tid, n - 1);
      assert FirstAggregates(n)[..n - 1] == FirstAggregates(n - 1);
      AggregateLinksStep(g.reg, tid, g.aggregates, n - 1);
    }
  }

  /** Everything a link of tid could come from, in order. */
  ghost function Candidates(g: TypeGraph, tid: TypeId): seq<Origin>
    requires tid < |g.reg.types|
  {
    FirstAttributes(|g.reg.types[tid].attributes|) + FirstTypes(|g.reg.types|) + FirstAggregates(|g.aggregates|)
  }

  lemma LinksAreCandidates(g: TypeGraph, tid: TypeId)
    requires tid < |g.reg.types|
    ensures LinksFor(g, tid, Candidates(g, tid)) == g.Links(tid)
  {
    var attrs := g.reg.types[tid].attributes;
    var a, b, c := FirstAttributes(|attrs|), FirstTypes(|g.reg.types|), FirstAggregates(|g.aggregates|);
    AttributesLinked(g, tid, |attrs|);
    TypesLinked(g, tid, |g.reg.types|);
    AggregatesLinked(g, tid, |g.aggregates|);
    assert attrs[..|attrs|] == attrs && g.aggregates[..|g.aggregates|] == g.aggregates;
    LinksForConcat(g, tid, a, b);
    LinksForConcat(g, tid, a + b, c);
  }

  lemma CandidatesAre(g: TypeGraph, tid: TypeId, o: Origin)
    requires tid < |g.reg.types|
    ensures o in Candidates(g, tid) <==>
      match o
      case OfAttribute(i) => i < |g.reg.types[tid].attributes|
      case OfType(j) => j < |g.reg.types|
      case OfAggregate(k) => k < |g.aggregates|
    ensures Ordered(Candidates(g, tid))
  {
    var a, b := FirstAttributes(|g.reg.types[tid].attributes|), FirstTypes(|g.reg.types|);
    var all := Candidates(g, tid);
    match o
    case OfAttribute(i) => assert i < |a| ==> all[i] == o;
    case OfType(j) => assert j < |b| ==> all[|a| + j] == o;
    case OfAggregate(k) => assert k < |g.aggregates| ==> all[|a| + |b| + k] == o;
  }

  /** The links out of a type are exactly what its origins give, each once and in order. */
  lemma LinksComeFrom(g: TypeGraph, tid: TypeId) returns (os: seq<Origin>)
    requires g.Valid() && tid < |g.reg.types|
    ensures Explains(g, tid, os, g.Links(tid))
    ensures forall o :: o in os <==> IsFollowed(g, tid, o)
  {
    var all := Candidates(g, tid);
    os := Linked(g, tid, all);
    CandidatesAre(g, tid, OfType(0));
    LinkedExplain(g, tid, all);
    LinksAreCandidates(g, tid);
    forall o ensures o in os <==> IsFollowed(g, tid, o) {
      LinkedAre(g, tid, all, o);
      CandidatesAre(g, tid, o);
      var link := LinkFor(g, tid, o);
      if link != [] {
        LinkForIsGiven(g, tid, o, link[0]);
        assert link == [link[0]];
      }
      if l :| Gives(g, tid, o, l) {
        LinkForIsGiven(g, tid, o, l);
      }
    }
  }

  lemma LinkIffGiven(g: TypeGraph, tid: TypeId, l: Link)
    requires g.Valid() && tid < |g.reg.types|
    ensures l in g.Links(tid) <==> exists o :: Gives(g, tid, o, l)
  {
    var os := LinksComeFrom(g, tid);
    var links := g.Links(tid);
    if o :| Gives(g, tid, o, l) {
      assert IsFollowed(g, tid, o);
      var i :| 0 <= i < |os| && os[i] == o;
      GivesOne(g, tid, o, l, links[i]);
      assert links[i] in links;
    }
    if l in links {
      var i :| 0 <= i < |links| && links[i] == l;
      assert Gives(g, tid, os[i], links[i]);
    }
  }

  lemma GivesOne(g: TypeGraph, tid: TypeId, o: Origin, l: Link, m: Link)
    requires g.Valid() && tid < |g.reg.types| && Gives(g, tid, o, l) && Gives(g, tid, o, m)
    ensures l == m
  {
  }

  /** Nothing but a pointer attribute leads to a plain Object. */
  ghost predicate OnlyPointedTo(g: TypeGraph) {
    && g.reg.objectType < |g.reg.types| && g.reg.types[g.reg.objectType].ancestors == {}
    && (forall t, i :: 0 <= t < |g.reg.types| && 0 <= i < |g.reg.types[t].attributes| ==>
          g.reg.types[t].attributes[i].checker != Container(g.reg.objectType))
    && (forall k :: 0 <= k < |g.aggregates| ==>
          g.aggregates[k].0 != g.reg.objectType && g.aggregates[k].1 != g.reg.objectType)
  }

  /** Then no path from another type goes through it. */
  lemma {:induction false} ObjectNotReached(g: TypeGraph, tid: TypeId, p: seq<nat>)
    requires g.Valid() && tid < |g.reg.types| && OnlyPointedTo(g) && tid != g.reg.objectType && IsPath(g, tid, p)
    ensures g.reg.objectType !in TypesOn(g, tid, p) && EndOf(g, tid, p) != g.reg.objectType
    decreases |p|
  {
    if p != [] {
      var l := g.Links(tid)[p[0]];
      LinksRegistered(g, tid);
      LinkIffGiven(g, tid, l);
      ObjectNotReached(g, l.target, p[1..]);
    }
  }

  // --------------------------------------------------------------------- simple paths

  /** p gives, for each step from tid, which link is followed. */
  ghost predicate IsPath(g: TypeGraph, tid: TypeId, p: seq<nat>)
    decreases |p|
  {
    p == [] || (p[0] < |g.Links(tid)| && IsPath(g, g.Links(tid)[p[0]].target, p[1..]))
  }

  ghost function TypesOn(g: TypeGraph, tid: TypeId, p: seq<nat>): seq<TypeId>
    requires IsPath(g, tid, p)
    decreases |p|
  {
    [tid] + if p == [] then [] else TypesOn(g, g.Links(tid)[p[0]].target, p[1..])
  }

  ghost function LabelsOn(g: TypeGraph, tid: TypeId, p: seq<nat>): seq<string>
    requires IsPath(g, tid, p)
    decreases |p|
  {
    if p == [] then [] else [g.Links(tid)[p[0]].name] + LabelsOn(g, g.Links(tid)[p[0]].target, p[1..])
  }

  ghost function EndOf(g: TypeGraph, tid: TypeId, p: seq<nat>): TypeId
    requires IsPath(g, tid, p)
    decreases |p|
  {
    if p == [] then tid else EndOf(g, g.Links(tid)[p[0]].target, p[1..])
  }

  /** A path on which no type occurs twice. */
  ghost predicate SimplePath(g: TypeGraph, tid: TypeId, p: seq<nat>) {
    IsPath(g, tid, p) && NoDup(TypesOn(g, tid, p))
  }

  /** The configuration path string for a list of labels. */
  function PathString(labels: seq<string>): string {
    if labels == [] then "" else PathString(labels[..|labels| - 1]) + "/" + labels[|labels| - 1]
  }

  /** Each label stands behind a slash. */
  lemma {:induction false} PathStringJoins(a: seq<string>, b: seq<string>)
    ensures PathString(a + b) == PathString(a) + PathString(b)
  {
    if b == [] {
      assert a + b == a;
    } else {
      ConcatInit(a, b);
      PathStringJoins(a, b[..|b| - 1]);
    }
  }

  lemma PathStringOfOne(name: string)
    ensures PathString([]) == "" && PathString([name]) == "/" + name
  {
    assert [name][..0] == [];
  }

  /** Depth-first order: a path precedes its continuations, and earlier links go first. */
  ghost predicate Before(p: seq<nat>, q: seq<nat>) {
    q != [] && (p == [] || p[0] < q[0] || (p[0] == q[0] && Before(p[1..], q[1..])))
  }

  ghost predicate InOrder(ps: seq<seq<nat>>) {
    forall i, j :: 0 <= i < j < |ps| ==> Before(ps[i], ps[j])
  }

  /** `out` has one entry for each simple path from root, in depth-first order, with its end and its string. */
  ghost predicate ListsSimplePaths(g: TypeGraph, root: TypeId, ps: seq<seq<nat>>, out: Output) {
    && |ps| == |out| && InOrder(ps)
    && (forall p :: p in ps <==> SimplePath(g, root, p))
    && forall i :: 0 <= i < |ps| ==>
         SimplePath(g, root, ps[i]) && out[i] == (EndOf(g, root, ps[i]), PathString(LabelsOn(g, root, ps[i])))
  }

  // ------------------------------------------------------------ the walk, as a function

  type Output = seq<(TypeId, string)>

  /** The output after a visit of tid, when `free` are the types not on the stack. */
  ghost function Visit(g: TypeGraph, free: set<TypeId>, labels: seq<string>, tid: TypeId, out: Output): Output
    decreases free, 0
  {
    if tid !in free then out
    else VisitLinks(g, free - {tid}, labels, g.Links(tid), out + [(tid, PathString(labels))])
  }

  ghost function VisitLinks(g: TypeGraph, free: set<TypeId>, labels: seq<string>, links: seq<Link>, out: Output): Output
    decreases free, 1 + |links|
  {
    if links == [] then out else
      var l := links[|links| - 1];
      Visit(g, free, labels + [l.name], l.target, VisitLinks(g, free, labels, links[..|links| - 1], out))
  }

  lemma VisitLinksOneMore(g: TypeGraph, free: set<TypeId>, labels: seq<string>, links: seq<Link>, l: Link, out: Output)
    ensures VisitLinks(g, free, labels, links + [l], out) ==
      Visit(g, free, labels + [l.name], l.target, VisitLinks(g, free, labels, links, out))
  {
    assert (links + [l])[..|links|] == links;
  }

  lemma {:induction false} VisitLinksConcat(g: TypeGraph, free: set<TypeId>, labels: seq<string>, a: seq<Link>,
                                            b: seq<Link>, out: Output)
    ensures VisitLinks(g, free, labels, a + b, out) ==
      VisitLinks(g, free, labels, b, VisitLinks(g, free, labels, a, out))
  {
    if b == [] {
      assert a + b == a;
    } else {
      VisitLinksConcat(g, free, labels, a, b[..|b| - 1], out);
      assert (a + b)[..|a + b| - 1] == a + b[..|b| - 1];
    }
  }

  /** The three loops of a visit, one after the other, make up the visit. */
  lemma VisitInThree(g: TypeGraph, free: set<TypeId>, labels: seq<string>, tid: TypeId,
                     a: seq<Link>, b: seq<Link>, c: seq<Link>, out: Output)
    requires tid in free && a + b + c == g.Links(tid)
    ensures Visit(g, free, labels, tid, out) ==
      VisitLinks(g, free - {tid}, labels, c, VisitLinks(g, free - {tid}, labels, b,
        VisitLinks(g, free - {tid}, labels, a, out + [(tid, PathString(labels))])))
  {
    VisitLinksConcat(g, free - {tid}, labels, a + b, c, out + [(tid, PathString(labels))]);
    VisitLinksConcat(g, free - {tid}, labels, a, b, out + [(tid, PathString(labels))]);
  }

  /** The paths behind the entries that a visit appends, in the same order. */
  ghost function Paths(g: TypeGraph, free: set<TypeId>, tid: TypeId): seq<seq<nat>>
    decreases free, 0
  {
    if tid !in free then [] else [[]] + PathsBelow(g, free - {tid}, g.Links(tid))
  }

  ghost function PathsBelow(g: TypeGraph, free: set<TypeId>, links: seq<Link>): seq<seq<nat>>
    decreases free, 1 + |links|
  {
    if links == [] then [] else
      var k := |links| - 1;
      PathsBelow(g, free, links[..k]) + Under(k, Paths(g, free, links[k].target))
  }

  ghost function Under(k: nat, ps: seq<seq<nat>>): seq<seq<nat>> {
    seq(|ps|, i requires 0 <= i < |ps| => [k] + ps[i])
  }

  /** A path from tid that stays in `free` and repeats nothing. */
  ghost predicate SimpleIn(g: TypeGraph, free: set<TypeId>, tid: TypeId, p: seq<nat>)
    decreases |p|
  {
    tid in free &&
    (p == [] || (p[0] < |g.Links(tid)| && SimpleIn(g, free - {tid}, g.Links(tid)[p[0]].target, p[1..])))
  }

  lemma {:induction false} SimpleInIsSimple(g: TypeGraph, free: set<TypeId>, tid: TypeId, p: seq<nat>)
    ensures SimpleIn(g, free, tid, p) <==>
      IsPath(g, tid, p) && NoDup(TypesOn(g, tid, p)) && ToSet(TypesOn(g, tid, p)) <= free
    decreases |p|
  {
    if p != [] && p[0] < |g.Links(tid)| {
      var t := g.Links(tid)[p[0]].target;
      SimpleInIsSimple(g, free - {tid}, t, p[1..]);
      if IsPath(g, tid, p) {
        NoDupCons(tid, TypesOn(g, t, p[1..]), free);
      }
    } else if p == [] {
      assert TypesOn(g, tid, p) == [tid];
      assert tid in ToSet([tid]);
    }
  }

  lemma NoDupCons<T>(x: T, s: seq<T>, u: set<T>)
    ensures NoDup([x] + s) && ToSet([x] + s) <= u <==> NoDup(s) && ToSet(s) <= u - {x} && x in u
  {
    var t := [x] + s;
    assert forall y :: y in t <==> y == x || y in s;
    if NoDup(t) && ToSet(t) <= u {
      assert t[0] in ToSet(t);
      forall y | y in s ensures y in u && y != x {
        var i :| 0 <= i < |s| && s[i] == y;
        assert t[i + 1] == y && y in ToSet(t) && t[0] != t[i + 1];
      }
      forall i, j | 0 <= i < j < |s| ensures s[i] != s[j] {
        assert t[i + 1] != t[j + 1];
      }
    }
    if NoDup(s) && ToSet(s) <= u - {x} && x in u {
      NoDupConcat([x], s) by {
        forall y | y in s ensures y != x { assert y in ToSet(s); }
      }
      assert ToSet(t) == ToSet(s) + {x};
    }
  }

  // ----------------------------------------------------- the walk lists the simple paths

  ghost function Entry(g: TypeGraph, tid: TypeId, labels: seq<string>, p: seq<nat>): (TypeId, string)
    requires IsPath(g, tid, p)
  {
    (EndOf(g, tid, p), PathString(labels + LabelsOn(g, tid, p)))
  }

  /** `out` is `base` followed by one entry for each of the paths. */
  ghost predicate Matches(g: TypeGraph, tid: TypeId, labels: seq<string>, ps: seq<seq<nat>>, base: Output,
                          out: Output) {
    && |out| == |base| + |ps| && base <= out
    && forall i :: 0 <= i < |ps| ==> IsPath(g, tid, ps[i]) && out[|base| + i] == Entry(g, tid, labels, ps[i])
  }

  lemma MatchesJoin(g: TypeGraph, tid: TypeId, labels: seq<string>, ps: seq<seq<nat>>, base: Output, mid: Output,
                    qs: seq<seq<nat>>, out: Output)
    requires Matches(g, tid, labels, ps, base, mid) && Matches(g, tid, labels, qs, mid, out)
    ensures Matches(g, tid, labels, ps + qs, base, out)
  {
    forall i | 0 <= i < |ps + qs|
      ensures IsPath(g, tid, (ps + qs)[i]) && out[|base| + i] == Entry(g, tid, labels, (ps + qs)[i])
    {
      if i < |ps| {
        assert out[|base| + i] == mid[|base| + i];
      } else {
        assert out[|mid| + (i - |ps|)] == Entry(g, tid, labels, qs[i - |ps|]);
      }
    }
  }

  lemma UnderMatches(g: TypeGraph, tid: TypeId, k: nat, labels: seq<string>, ps: seq<seq<nat>>, base: Output,
                     out: Output)
    requires k < |g.Links(tid)|
    requires Matches(g, g.Links(tid)[k].target, labels + [g.Links(tid)[k].name], ps, base, out)
    ensures Matches(g, tid, labels, Under(k, ps), base, out)
  {
    var l := g.Links(tid)[k];
    forall i | 0 <= i < |ps|
      ensures IsPath(g, tid, Under(k, ps)[i]) && out[|base| + i] == Entry(g, tid, labels, Under(k, ps)[i])
    {
      var q := Under(k, ps)[i];
      assert q[0] == k && q[1..] == ps[i];
      assert labels + ([l.name] + LabelsOn(g, l.target, ps[i])) == labels + [l.name] + LabelsOn(g, l.target, ps[i]);
    }
  }

  lemma {:induction false} VisitMatches(g: TypeGraph, free: set<TypeId>, labels: seq<string>, tid: TypeId, base: Output)
    ensures Matches(g, tid, labels, Paths(g, free, tid), base, Visit(g, free, labels, tid, base))
    decreases free, 0
  {
    if tid in free {
      var n, mid := |g.Links(tid)|, base + [(tid, PathString(labels))];
      BelowMatches(g, free - {tid}, labels, tid, n, mid);
      assert g.Links(tid)[..n] == g.Links(tid);
      assert labels + [] == labels;
      MatchesJoin(g, tid, labels, [[]], base, mid, PathsBelow(g, free - {tid}, g.Links(tid)),
        Visit(g, free, labels, tid, base));
    }
  }

  lemma {:induction false} BelowMatches(g: TypeGraph, free: set<TypeId>, labels: seq<string>, tid: TypeId, n: nat,
                                        base: Output)
    requires n <= |g.Links(tid)|
    ensures Matches(g, tid, labels, PathsBelow(g, free, g.Links(tid)[..n]), base,
                    VisitLinks(g, free, labels, g.Links(tid)[..n], base))
    decreases free, 1 + n
  {
    if n > 0 {
      var l, fewer := g.Links(tid)[n - 1], g.Links(tid)[..n - 1];
      PrefixOfPrefix(g.Links(tid), n, n - 1);
      var mid := VisitLinks(g, free, labels, fewer, base);
      BelowMatches(g, free, labels, tid, n - 1, base);
      VisitMatches(g, free, labels + [l.name], l.target, mid);
      var ps, out := Paths(g, free, l.target), Visit(g, free, labels + [l.name], l.target, mid);
      UnderMatchesNext(g, tid, n - 1, labels, PathsBelow(g, free, fewer), base, mid, ps, out);
    }
  }

  lemma UnderMatchesNext(g: TypeGraph, tid: TypeId, k: nat, labels: seq<string>, before: seq<seq<nat>>, base: Output,
                         mid: Output, ps: seq<seq<nat>>, out: Output)
    requires k < |g.Links(tid)| && Matches(g, tid, labels, before, base, mid)
    requires Matches(g, g.Links(tid)[k].target, labels + [g.Links(tid)[k].name], ps, mid, out)
    ensures Matches(g, tid, labels, before + Under(k, ps), base, out)
  {
    UnderMatches(g, tid, k, labels, ps, mid, out);
    MatchesJoin(g, tid, labels, before, base, mid, Under(k, ps), out);
  }

  lemma {:induction false} PathsAreSimple(g: TypeGraph, free: set<TypeId>, tid: TypeId, p: seq<nat>)
    ensures p in Paths(g, free, tid) <==> SimpleIn(g, free, tid, p)
    decreases free, 0
  {
    if tid in free {
      var n := |g.Links(tid)|;
      assert g.Links(tid)[..n] == g.Links(tid);
      BelowAreSimple(g, free - {tid}, g.Links(tid), p);
    }
  }

  lemma {:induction false} BelowAreSimple(g: TypeGraph, free: set<TypeId>, links: seq<Link>, p: seq<nat>)
    ensures p in PathsBelow(g, free, links) <==>
      p != [] && p[0] < |links| && SimpleIn(g, free, links[p[0]].target, p[1..])
    decreases free, 1 + |links|
  {
    if links != [] {
      var k := |links| - 1;
      BelowAreSimple(g, free, links[..k], p);
      var ps := Paths(g, free, links[k].target);
      InUnder(k, ps, p);
      if p != [] {
        PathsAreSimple(g, free, links[k].target, p[1..]);
      }
    }
  }

  lemma InUnder(k: nat, ps: seq<seq<nat>>, p: seq<nat>)
    ensures p in Under(k, ps) <==> p != [] && p[0] == k && p[1..] in ps
  {
    if p != [] && p[0] == k && p[1..] in ps {
      var i :| 0 <= i < |ps| && ps[i] == p[1..];
      assert Under(k, ps)[i] == [k] + p[1..] == p;
    }
    if p in Under(k, ps) {
      var i :| 0 <= i < |ps| && Under(k, ps)[i] == p;
      assert p == [k] + ps[i];
    }
  }

  lemma {:induction false} PathsInOrder(g: TypeGraph, free: set<TypeId>, tid: TypeId)
    ensures InOrder(Paths(g, free, tid))
    decreases free, 0
  {
    if tid in free {
      BelowInOrder(g, free - {tid}, g.Links(tid));
    }
  }

  ghost predicate StartBelow(ps: seq<seq<nat>>, n: nat) {
    forall i :: 0 <= i < |ps| ==> ps[i] != [] && ps[i][0] < n
  }

  lemma InOrderUnder(a: seq<seq<nat>>, k: nat, b: seq<seq<nat>>)
    requires InOrder(a) && StartBelow(a, k) && InOrder(b)
    ensures InOrder(a + Under(k, b)) && StartBelow(a + Under(k, b), k + 1)
  {
    var u := Under(k, b);
    forall i, j | 0 <= i < j < |a + u| ensures Before((a + u)[i], (a + u)[j]) {
      if i >= |a| {
        assert u[i - |a|][1..] == b[i - |a|] && u[j - |a|][1..] == b[j - |a|];
      }
    }
  }

  lemma {:induction false} BelowInOrder(g: TypeGraph, free: set<TypeId>, links: seq<Link>)
    ensures InOrder(PathsBelow(g, free, links)) && StartBelow(PathsBelow(g, free, links), |links|)
    decreases free, 1 + |links|
  {
    if links != [] {
      var k := |links| - 1;
      BelowInOrder(g, free, links[..k]);
      PathsInOrder(g, free, links[k].target);
      InOrderUnder(PathsBelow(g, free, links[..k]), k, Paths(g, free, links[k].target));
    }
  }

  /** From an empty stack, the walk lists exactly the simple paths from root. */
  lemma VisitListsSimplePaths(g: TypeGraph, root: TypeId, out: Output)
    requires g.Valid() && root < |g.reg.types|
    ensures out <= Visit(g, g.Types(), [], root, out)
    ensures ListsSimplePaths(g, root, Paths(g, g.Types(), root), Visit(g, g.Types(), [], root, out)[|out|..])
  {
    var ps := Paths(g, g.Types(), root);
    PathsInOrder(g, g.Types(), root);
    VisitMatches(g, g.Types(), [], root, out);
    forall p ensures p in ps <==> SimplePath(g, root, p) {
      PathsAreSimple(g, g.Types(), root, p);
      SimpleInIsSimple(g, g.Types(), root, p);
      if IsPath(g, root, p) {
        TypesRegistered(g, root, p);
      }
    }
    forall i | 0 <= i < |ps|
      ensures [] + LabelsOn(g, root, ps[i]) == LabelsOn(g, root, ps[i]) && SimplePath(g, root, ps[i])
    {
      assert ps[i] in ps;
    }
  }

  lemma {:induction false} BeforeAsymmetric(p: seq<nat>, q: seq<nat>)
    requires Before(p, q)
    ensures !Before(q, p) && p != q
  {
    if p != [] && p[0] == q[0] {
      BeforeAsymmetric(p[1..], q[1..]);
    }
  }

  lemma SameFirst(ps: seq<seq<nat>>, qs: seq<seq<nat>>)
    requires InOrder(ps) && InOrder(qs) && ps != [] && qs != []
    requires ps[0] in qs && qs[0] in ps
    ensures ps[0] == qs[0]
  {
    var j :| 0 <= j < |qs| && qs[j] == ps[0];
    var i :| 0 <= i < |ps| && ps[i] == qs[0];
    if 0 < j && 0 < i {
      BeforeAsymmetric(ps[0], qs[0]);
    }
  }

  lemma RestHasNotFirst(ps: seq<seq<nat>>, p: seq<nat>)
    requires InOrder(ps) && ps != []
    ensures InOrder(ps[1..]) && (p in ps[1..] <==> p in ps && p != ps[0])
  {
    if p in ps[1..] {
      var i :| 0 <= i < |ps| - 1 && ps[1..][i] == p;
      BeforeAsymmetric(ps[0], ps[i + 1]);
    }
    assert ps == [ps[0]] + ps[1..];
  }

  /** The order leaves no choice: the same paths in order are the same list, so the entries are determined. */
  lemma {:induction false} OrderDetermines(ps: seq<seq<nat>>, qs: seq<seq<nat>>)
    requires InOrder(ps) && InOrder(qs) && forall p :: p in ps <==> p in qs
    ensures ps == qs
  {
    assert ps != [] ==> ps[0] in ps;
    assert qs != [] ==> qs[0] in qs;
    if ps != [] && qs != [] {
      SameFirst(ps, qs);
      forall p ensures p in ps[1..] <==> p in qs[1..] {
        RestHasNotFirst(ps, p);
        RestHasNotFirst(qs, p);
      }
      RestHasNotFirst(ps, ps[0]);
      RestHasNotFirst(qs, qs[0]);
      OrderDetermines(ps[1..], qs[1..]);
      assert ps == [ps[0]] + ps[1..] && qs == [qs[0]] + qs[1..];
    }
  }

  lemma ListingIsUnique(g: TypeGraph, root: TypeId, ps: seq<seq<nat>>, out: Output, qs: seq<seq<nat>>, out': Output)
    requires ListsSimplePaths(g, root, ps, out) && ListsSimplePaths(g, root, qs, out')
    ensures out == out'
  {
    OrderDetermines(ps, qs);
  }

  lemma LinksRegistered(g: TypeGraph, tid: TypeId)
    requires g.Valid()
    ensures forall i :: 0 <= i < |g.Links(tid)| ==> g.Links(tid)[i].target < |g.reg.types|
  {
    if tid < |g.reg.types| {
      AttributesRegistered(g.reg, g.reg.types[tid].attributes);
      ChildrenRegistered(g.reg, tid, |g.reg.types|);
      AggregatesRegistered(g.reg, tid, g.aggregates);
    }
  }

  lemma {:induction false} AttributesRegistered(reg: Registry, attrs: seq<Attribute>)
    requires forall i :: 0 <= i < |attrs| ==>
      match attrs[i].checker
      case Pointer(p) => p < |reg.types|
      case Container(p) => p < |reg.types|
      case OtherChecker => true
    ensures forall i :: 0 <= i < |AttributeLinks(reg, attrs)| ==> AttributeLinks(reg, attrs)[i].target < |reg.types|
  {
    if attrs != [] {
      AttributesRegistered(reg, attrs[..|attrs| - 1]);
    }
  }

  lemma {:induction false} ChildrenRegistered(reg: Registry, tid: TypeId, n: nat)
    requires n <= |reg.types|
    ensures forall i :: 0 <= i < |ChildLinks(reg, tid, n)| ==> ChildLinks(reg, tid, n)[i].target < |reg.types|
  {
    if n > 0 {
      ChildrenRegistered(reg, tid, n - 1);
    }
  }

  lemma {:induction false} AggregatesRegistered(reg: Registry, tid: TypeId, aggregates: seq<(TypeId, TypeId)>)
    requires forall i :: 0 <= i < |aggregates| ==> aggregates[i].0 < |reg.types| && aggregates[i].1 < |reg.types|
    ensures forall i :: 0 <= i < |AggregateLinks(reg, tid, aggregates)| ==>
      AggregateLinks(reg, tid, aggregates)[i].target < |reg.types|
  {
    if aggregates != [] {
      AggregatesRegistered(reg, tid, aggregates[..|aggregates| - 1]);
    }
  }

  lemma {:induction false} TypesRegistered(g: TypeGraph, tid: TypeId, p: seq<nat>)
    requires g.Valid() && tid < |g.reg.types| && IsPath(g, tid, p)
    ensures ToSet(TypesOn(g, tid, p)) <= g.Types()
    decreases |p|
  {
    if p != [] {
      LinksRegistered(g, tid);
      TypesRegistered(g, g.Links(tid)[p[0]].target, p[1..]);
    }
  }

  /** What only pointers lead to is not listed by a walk from elsewhere. */
  lemma ObjectNotListed(g: TypeGraph, root: TypeId, ps: seq<seq<nat>>, out: Output)
    requires g.Valid() && root < |g.reg.types| && OnlyPointedTo(g) && root != g.reg.objectType
    requires ListsSimplePaths(g, root, ps, out)
    ensures forall i :: 0 <= i < |out| ==> out[i].0 != g.reg.objectType
  {
    forall i | 0 <= i < |out| ensures out[i].0 != g.reg.objectType {
      assert SimplePath(g, root, ps[i]);
      ObjectNotReached(g, root, ps[i]);
    }
  }

  // ------------------------------------------------------------------ the strings of a type

  /** The strings that the output has for one type, in order. */
  ghost function StringsOf(output: Output, tid: TypeId): seq<string> {
    if output == [] then [] else
      var (t, s) := output[|output| - 1];
      if t == tid then StringsOf(output[..|output| - 1], tid) + [s] else StringsOf(output[..|output| - 1], tid)
  }

  lemma {:induction false} StringsAreEntries(output: Output, tid: TypeId, s: string)
    ensures multiset(StringsOf(output, tid))[s] == multiset(output)[(tid, s)]
  {
    if output != [] {
      var init, last := output[..|output| - 1], output[|output| - 1];
      InitLast(output);
      StringsAreEntries(init, tid, s);
      assert multiset(output) == multiset(init) + multiset{last};
      if last.0 == tid {
        assert multiset(StringsOf(output, tid)) == multiset(StringsOf(init, tid)) + multiset{last.1};
        assert last == (tid, s) <==> last.1 == s;
      } else {
        assert last != (tid, s);
      }
    }
  }

  /** p is a simple path that ends in tid and has this string. */
  ghost predicate EndsAs(g: TypeGraph, root: TypeId, p: seq<nat>, tid: TypeId, s: string) {
    SimplePath(g, root, p) && EndOf(g, root, p) == tid && PathString(LabelsOn(g, root, p)) == s
  }

  /** After a walk from the root, a type has exactly the strings of the simple paths that end in it. */
  lemma StringsArePaths(g: TypeGraph, root: TypeId, ps: seq<seq<nat>>, out: Output, tid: TypeId, s: string)
    requires ListsSimplePaths(g, root, ps, out)
    ensures s in StringsOf(out, tid) <==> exists p :: EndsAs(g, root, p, tid, s)
  {
    StringsAreEntries(out, tid, s);
    assert s in StringsOf(out, tid) <==> s in multiset(StringsOf(out, tid));
    assert (tid, s) in out <==> (tid, s) in multiset(out);
    if (tid, s) in out {
      var i :| 0 <= i < |out| && out[i] == (tid, s);
      assert EndsAs(g, root, ps[i], tid, s);
    }
    if p :| EndsAs(g, root, p, tid, s) {
      assert p in ps;
      var i :| 0 <= i < |ps| && ps[i] == p;
      assert out[i] == (tid, s);
    }
  }

  // ------------------------------------------------------------------------- the class

  class StaticInformation {
    const reg: Registry
    var output: Output
    var currentPath: seq<string>
    var alreadyProcessed: seq<TypeId>
    var aggregates: seq<(TypeId, TypeId)>

    ghost function Graph(): TypeGraph
      reads this`aggregates
    {
      TypeGraph(reg, aggregates)
    }

    /** The types that are not on the stack. */
    ghost function Free(): set<TypeId>
      reads this`aggregates, this`alreadyProcessed
    {
      Graph().Types() - ToSet(alreadyProcessed)
    }

    constructor (reg: Registry, aggregates: seq<(TypeId, TypeId)>)
      ensures this.reg == reg && this.aggregates == aggregates
      ensures output == [] && currentPath == [] && alreadyProcessed == []
    {
      this.reg, this.aggregates := reg, aggregates;
      output, currentPath, alreadyProcessed := [], [], [];
    }

    method GetCurrentPath() returns (path: string)
      ensures path == PathString(currentPath)
    {
      path := "";
      for i := 0 to |currentPath|
        invariant path == PathString(currentPath[..i])
      {
        assert currentPath[..i + 1][..i] == currentPath[..i];
        path := path + "/" + currentPath[i];
      }
      assert currentPath[..|currentPath|] == currentPath;
    }

    method RecordOutput(tid: TypeId)
      modifies this`output
      ensures output == old(output) + [(tid, PathString(currentPath))]
    {
      var path := GetCurrentPath();
      output := output + [(tid, path)];
    }

    method HasAlreadyBeenProcessed(tid: TypeId) returns (found: bool)
      ensures found <==> tid in alreadyProcessed
    {
      for i := 0 to |alreadyProcessed|
        invariant tid !in alreadyProcessed[..i]
      {
        if alreadyProcessed[i] == tid {
          return true;
        }
      }
      return false;
    }

    /** Push, recurse, pop: lines 1214-1218, 1226-1230, 1240-1244 and 1262-1266. */
    method Follow(tid: TypeId, name: string, target: TypeId)
      requires Graph().Valid() && tid in Free() && target < |reg.types|
      modifies this`output, this`currentPath, this`alreadyProcessed
      ensures currentPath == old(currentPath) && alreadyProcessed == old(alreadyProcessed)
      ensures output == Visit(Graph(), Free() - {tid}, currentPath + [name], target, old(output))
      decreases Free(), 0, 0
    {
      var path, stack := currentPath, alreadyProcessed;
      currentPath := path + [name];
      alreadyProcessed := stack + [tid];
      assert Free() == old(Free()) - {tid};
      DoGather(target);
      alreadyProcessed := alreadyProcessed[..|alreadyProcessed| - 1];
      currentPath := currentPath[..|currentPath| - 1];
      assert currentPath == path && alreadyProcessed == stack;
    }

    method DoGather(tid: TypeId)
      requires Graph().Valid() && tid < |reg.types|
      modifies this`output, this`currentPath, this`alreadyProcessed
      ensures currentPath == old(currentPath) && alreadyProcessed == old(alreadyProcessed)
      ensures output == Visit(Graph(), Free(), currentPath, tid, old(output))
      decreases Free(), 2
    {
      var processed := HasAlreadyBeenProcessed(tid);
      if processed {
        return;
      }
      VisitInThree(Graph(), Free(), currentPath, tid, AttributeLinks(reg, reg.types[tid].attributes),
        ChildLinks(reg, tid, |reg.types|), AggregateLinks(reg, tid, aggregates), output);
      RecordOutput(tid);
      FollowAttributes(tid);
      FollowChildren(tid);
      FollowAggregates(tid);
    }

    /** These links out of tid have been followed, starting from output `base`. */
    ghost predicate Followed(tid: TypeId, links: seq<Link>, base: Output)
      reads this
    {
      output == VisitLinks(Graph(), Free() - {tid}, currentPath, links, base)
    }

    /** Follow the link that an attribute, subtype or aggregation gives rise to, if any. */
    method FollowAny(tid: TypeId, ghost before: seq<Link>, link: seq<Link>, ghost base: Output)
      requires Graph().Valid() && tid in Free() && Followed(tid, before, base)
      requires |link| <= 1 && forall l :: l in link ==> l.target < |reg.types|
      modifies this`output, this`currentPath, this`alreadyProcessed
      ensures currentPath == old(currentPath) && alreadyProcessed == old(alreadyProcessed)
      ensures Followed(tid, before + link, base)
      decreases Free(), 0, 1
    {
      if link == [] {
        assert before + link == before;
      } else {
        assert link == [link[0]];
        VisitLinksOneMore(Graph(), Free() - {tid}, currentPath, before, link[0], base);
        Follow(tid, link[0].name, link[0].target);
      }
    }

    /** Lines 1196-1226: pointers, except to plain objects, and containers are followed. */
    method FromAttribute(info: Attribute) returns (link: seq<Link>)
      ensures link == AttributeLink(reg, info)
    {
      link := [];
      if info.checker.Pointer? {
        if reg.objectType == info.checker.pointee {
          return;
        }
        return [Link(info.name, info.checker.pointee)];
      }
      if info.checker.Container? {
        return [Link(info.name + "/[i]", info.checker.item)];
      }
    }

    /** Lines 1236-1240. */
    method FromRegistered(tid: TypeId, j: nat) returns (link: seq<Link>)
      requires j < |reg.types|
      ensures link == ChildLink(reg, tid, j)
    {
      link := [];
      if tid in reg.types[j].ancestors {
        var childName := "$" + reg.types[j].name;
        link := [Link(childName, j)];
      }
    }

    /** Lines 1249-1262. */
    method FromAggregate(tid: TypeId, tmp: (TypeId, TypeId)) returns (link: seq<Link>)
      requires tmp.0 < |reg.types| && tmp.1 < |reg.types|
      ensures link == AggregateLink(reg, tid, tmp)
    {
      link := [];
      if tmp.0 == tid || tmp.1 == tid {
        var other := 0;
        if tmp.0 == tid {
          other := tmp.1;
        }
        if tmp.1 == tid {
          other := tmp.0;
        }
        link := [Link("$" + reg.types[other].name, other)];
      }
    }

    method FollowAttribute(tid: TypeId, i: nat, ghost before: seq<Link>, ghost base: Output)
      requires Graph().Valid() && tid in Free() && Followed(tid, before, base)
      requires i < |reg.types[tid].attributes|
      modifies this`output, this`currentPath, this`alreadyProcessed
      ensures currentPath == old(currentPath) && alreadyProcessed == old(alreadyProcessed)
      ensures Followed(tid, before + AttributeLink(reg, reg.types[tid].attributes[i]), base)
      decreases Free(), 0, 2
    {
      AttributeTarget(Graph(), tid, i);
      var link := FromAttribute(reg.types[tid].attributes[i]);
      FollowAny(tid, before, link, base);
    }

    method FollowAttributes(tid: TypeId)
      requires Graph().Valid() && tid in Free()
      modifies this`output, this`currentPath, this`alreadyProcessed
      ensures currentPath == old(currentPath) && alreadyProcessed == old(alreadyProcessed)
      ensures output == VisitLinks(Graph(), Free() - {tid}, currentPath,
        AttributeLinks(reg, reg.types[tid].attributes), old(output))
      decreases Free(), 1
    {
      var attrs := reg.types[tid].attributes;
      ghost var base := output;
      for i := 0 to |attrs|
        invariant currentPath == old(currentPath) && alreadyProcessed == old(alreadyProcessed)
        invariant Followed(tid, AttributeLinks(reg, attrs[..i]), base)
      {
        FollowAttribute(tid, i, AttributeLinks(reg, attrs[..i]), base);
        AttributeLinksStep(reg, attrs, i);
      }
      assert attrs[..|attrs|] == attrs;
    }

    method FollowChildren(tid: TypeId)
      requires Graph().Valid() && tid in Free()
      modifies this`output, this`currentPath, this`alreadyProcessed
      ensures currentPath == old(currentPath) && alreadyProcessed == old(alreadyProcessed)
      ensures output == VisitLinks(Graph(), Free() - {tid}, currentPath, ChildLinks(reg, tid, |reg.types|), old(output))
      decreases Free(), 1
    {
      ghost var base := output;
      for j := 0 to |reg.types|
        invariant currentPath == old(currentPath) && alreadyProcessed == old(alreadyProcessed)
        invariant Followed(tid, ChildLinks(reg, tid, j), base)
      {
        var link := FromRegistered(tid, j);
        FollowAny(tid, ChildLinks(reg, tid, j), link, base);
      }
    }

    method FollowAggregates(tid: TypeId)
      requires Graph().Valid() && tid in Free()
      modifies this`output, this`currentPath, this`alreadyProcessed
      ensures currentPath == old(currentPath) && alreadyProcessed == old(alreadyProcessed)
      ensures output == VisitLinks(Graph(), Free() - {tid}, currentPath, AggregateLinks(reg, tid, aggregates),
        old(output))
      decreases Free(), 1
    {
      ghost var base := output;
      var pairs := aggregates;
      for k := 0 to |pairs|
        invariant currentPath == old(currentPath) && alreadyProcessed == old(alreadyProcessed)
        invariant Followed(tid, AggregateLinks(reg, tid, pairs[..k]), base)
      {
        AggregateLinksStep(reg, tid, pairs, k);
        var link := FromAggregate(tid, pairs[k]);
        FollowAny(tid, AggregateLinks(reg, tid, pairs[..k]), link, base);
      }
      assert pairs[..|pairs|] == pairs;
    }

    /** Gather appends one entry for each simple path from tid, and leaves both stacks empty again. */
    method Gather(tid: TypeId)
      requires Graph().Valid() && tid < |reg.types|
      requires currentPath == [] && alreadyProcessed == []
      modifies this`output, this`currentPath, this`alreadyProcessed
      ensures currentPath == [] && alreadyProcessed == []
      ensures old(output) <= output
      ensures exists ps :: ListsSimplePaths(Graph(), tid, ps, output[|old(output)|..])
    {
      assert Free() == Graph().Types();
      VisitListsSimplePaths(Graph(), tid, output);
      DoGather(tid);
    }

    /** Lines 1129-1142: the strings of one type, in the order of the output. */
    method Get(tid: TypeId) returns (paths: seq<string>)
      ensures paths == StringsOf(output, tid)
    {
      paths := [];
      for i := 0 to |output|
        invariant paths == StringsOf(output[..i], tid)
      {
        assert output[..i + 1][..i] == output[..i];
        if output[i].0 == tid {
          paths := paths + [output[i].1];
        }
      }
      assert output[..|output|] == output;
    }
  }
}
