/**
 * The bookkeeping shared by the copy icons (modules/copy-manager.js) and the
 * download buttons (modules/thumbnail-downloader.js): a set of the containers
 * already given an affordance, checked before and updated after inserting one.
 *
 * `Marks` pairs that set with the affordances actually inserted into the page,
 * in insertion order. `Visit` is one call of addCopyIconToVideo or
 * addThumbnailDownloadButton: `made` is what the call would insert for the
 * container (`None` when a lookup fails and it returns early).
 */
module Affordances {
  import opened Wrappers
  import opened Dom

  datatype Attached<A> = Attached(video: NodeId, data: A)

  datatype Marks<A> = Marks(processed: set<NodeId>, attached: seq<Attached<A>>)

  /** The containers that carry an affordance. */
  function Carriers<A>(attached: seq<Attached<A>>): set<NodeId>
    decreases |attached|
  {
    if attached == [] then {}
    else Carriers(attached[..|attached| - 1]) + {attached[|attached| - 1].video}
  }

  /** No container carries two affordances. */
  predicate Distinct<A>(attached: seq<Attached<A>>)
    decreases |attached|
  {
    attached == [] ||
    (attached[|attached| - 1].video !in Carriers(attached[..|attached| - 1]) && Distinct(attached[..|attached| - 1]))
  }

  /** The set names exactly the containers that carry an affordance, and each carries one. */
  predicate Valid<A>(m: Marks<A>) {
    m.processed == Carriers(m.attached) && Distinct(m.attached)
  }

  lemma CarriersAppend<A>(attached: seq<Attached<A>>, x: Attached<A>)
    ensures Carriers(attached + [x]) == Carriers(attached) + {x.video}
    ensures Distinct(attached + [x]) <==> Distinct(attached) && x.video !in Carriers(attached)
  {
    assert (attached + [x])[..|attached|] == attached;
  }

  /** One attachment attempt: skipped for a marked container, and for one whose lookups fail. */
  function Visit<A>(m: Marks<A>, v: NodeId, made: Option<A>): (r: Marks<A>)
    ensures v in m.processed || made.None? ==> r == m
    ensures !(v in m.processed || made.None?) ==>
      r.processed == m.processed + {v} && r.attached == m.attached + [Attached(v, made.value)]
  {
    if v in m.processed || made.None? then m
    else Marks(m.processed + {v}, m.attached + [Attached(v, made.value)])
  }

  /** One pass over the containers, in order, as the forEach over findAllVideoElements does. */
  function Visits<A>(m: Marks<A>, vs: seq<NodeId>, make: NodeId -> Option<A>): Marks<A>
    decreases |vs|
  {
    if vs == [] then m
    else Visit(Visits(m, vs[..|vs| - 1], make), vs[|vs| - 1], make(vs[|vs| - 1]))
  }

  /** A pass over one more container is one more visit. */
  lemma VisitsStep<A>(m: Marks<A>, vs: seq<NodeId>, i: nat, make: NodeId -> Option<A>)
    requires i < |vs|
    ensures Visits(m, vs[..i + 1], make) == Visit(Visits(m, vs[..i], make), vs[i], make(vs[i]))
  {
    assert vs[..i + 1][..i] == vs[..i];
  }

  lemma VisitValid<A>(m: Marks<A>, v: NodeId, made: Option<A>)
    requires Valid(m)
    ensures Valid(Visit(m, v, made))
  {
    if !(v in m.processed || made.None?) {
      CarriersAppend(m.attached, Attached(v, made.value));
    }
  }

  /** A pass keeps the bookkeeping consistent. */
  lemma {:induction false} VisitsValid<A>(m: Marks<A>, vs: seq<NodeId>, make: NodeId -> Option<A>)
    requires Valid(m)
    ensures Valid(Visits(m, vs, make))
    decreases |vs|
  {
    if vs != [] {
      VisitsValid(m, vs[..|vs| - 1], make);
      VisitValid(Visits(m, vs[..|vs| - 1], make), vs[|vs| - 1], make(vs[|vs| - 1]));
    }
  }

  /**
   * After a pass, every container of the pass is either marked or one the
   * attachment gives up on; marks are never lost; and the new affordances come
   * after the old ones.
   */
  lemma {:induction false} VisitsSettles<A>(m: Marks<A>, vs: seq<NodeId>, make: NodeId -> Option<A>)
    ensures m.processed <= Visits(m, vs, make).processed
    ensures m.attached <= Visits(m, vs, make).attached
    ensures forall k :: 0 <= k < |vs| ==> vs[k] in Visits(m, vs, make).processed || make(vs[k]).None?
    decreases |vs|
  {
    if vs != [] {
      var init := vs[..|vs| - 1];
      VisitsSettles(m, init, make);
      forall k | 0 <= k < |init| ensures init[k] == vs[k] { }
    }
  }

  /** A pass over settled containers changes nothing. */
  lemma {:induction false} VisitsSettledNoop<A>(m: Marks<A>, vs: seq<NodeId>, make: NodeId -> Option<A>)
    requires forall k :: 0 <= k < |vs| ==> vs[k] in m.processed || make(vs[k]).None?
    ensures Visits(m, vs, make) == m
    decreases |vs|
  {
    if vs != [] {
      var init := vs[..|vs| - 1];
      forall k | 0 <= k < |init| ensures init[k] in m.processed || make(init[k]).None? {
        assert init[k] == vs[k];
      }
      VisitsSettledNoop(m, init, make);
    }
  }

  /** Running the same pass twice attaches nothing the first run did not: the passes are idempotent. */
  lemma VisitsIdempotent<A>(m: Marks<A>, vs: seq<NodeId>, make: NodeId -> Option<A>)
    ensures Visits(Visits(m, vs, make), vs, make) == Visits(m, vs, make)
  {
    VisitsSettles(m, vs, make);
    VisitsSettledNoop(Visits(m, vs, make), vs, make);
  }

  /** The set's size is the number of affordances in the page. */
  lemma {:induction false} CountIsSize<A>(attached: seq<Attached<A>>)
    requires Distinct(attached)
    ensures |Carriers(attached)| == |attached|
    decreases |attached|
  {
    if attached != [] {
      CountIsSize(attached[..|attached| - 1]);
    }
  }
}
