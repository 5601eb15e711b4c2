/** Integration of elementary forces over the facets of a mesh (SurfaceForceModel::get_force). */
module SurfaceForces {
  import opened Rotations
  import opened Wrenches

  /** Elementary force and its point of application, in the frame of the body. */
  datatype Elementary = Elementary(df: Vec, c: Vec)

  /** Sum of the forces of the first n facets. */
  function Resultant(elements: seq<Elementary>, n: nat): Vec
    requires n <= |elements|
  {
    if n == 0 then ZERO else Add(Resultant(elements, n - 1), elements[n - 1].df)
  }

  /** Sum of the moments of the first n facets about a point. */
  function MomentAbout(elements: seq<Elementary>, about: Vec, n: nat): Vec
    requires n <= |elements|
  {
    if n == 0 then ZERO
    else Add(MomentAbout(elements, about, n - 1), Cross(Sub(elements[n - 1].c, about), elements[n - 1].df))
  }

  function Elements<Facet>(facets: seq<Facet>, df: (Facet, nat) -> Elementary): (elements: seq<Elementary>)
    ensures |elements| == |facets|
  {
    seq(|facets|, i requires 0 <= i < |facets| => df(facets[i], i))
  }

  /** Entry i is the elementary force on facet i. */
  ghost predicate AreElements<Facet>(elements: seq<Elementary>, facets: seq<Facet>, df: (Facet, nat) -> Elementary) {
    |elements| == |facets| && forall i :: 0 <= i < |facets| ==> elements[i] == df(facets[i], i)
  }

  /** The wrench of a list of elementary forces at a point of the frame of the body. */
  function Integrated(elements: seq<Elementary>, g: Point, body: string): Screw {
    Screw(Resultant(elements, |elements|), MomentAbout(elements, g.v, |elements|), g, body)
  }

  method GetForce<Facet>(facets: seq<Facet>, df: (Facet, nat) -> Elementary, g: Point, body: string)
    returns (f: Wrench)
    ensures forall elements :: AreElements(elements, facets, df) ==> f.Value() == Integrated(elements, g, body)
  {
    f := new Wrench(g, body, ZERO, ZERO);
    ghost var elements := Elements(facets, df);
    var facetIndex := 0;
    while facetIndex < |facets|
      invariant 0 <= facetIndex <= |facets|
      invariant f.point == g && f.frame == body
      invariant f.force == Resultant(elements, facetIndex)
      invariant f.torque == MomentAbout(elements, g.v, facetIndex)
    {
      var e := df(facets[facetIndex], facetIndex);
      var x, y, z := e.c.x - g.v.x, e.c.y - g.v.y, e.c.z - g.v.z;
      f.force := Vec(f.force.x + e.df.x, f.force.y + e.df.y, f.force.z + e.df.z);
      f.torque := Vec(f.torque.x + Det(y, z, e.df.y, e.df.z),
                      f.torque.y + Det(z, x, e.df.z, e.df.x),
                      f.torque.z + Det(x, y, e.df.x, e.df.y));
      facetIndex := facetIndex + 1;
    }
    forall other | AreElements(other, facets, df) ensures other == elements {
    }
  }

  // ----- What the sums are -----

  /** Without facets there is no force, and two meshes add up. */
  lemma {:induction false} MeshesAddUp(first: seq<Elementary>, second: seq<Elementary>, g: Point, body: string)
    ensures Integrated([], g, body) == Screw(ZERO, ZERO, g, body)
    ensures Integrated(first + second, g, body)
         == Screw(Add(Integrated(first, g, body).force, Integrated(second, g, body).force),
                  Add(Integrated(first, g, body).torque, Integrated(second, g, body).torque), g, body)
  {
    if second == [] {
      assert first + second == first;
    } else {
      var n := |second| - 1;
      MeshesAddUp(first, second[..n], g, body);
      assert first + second == first + second[..n] + [second[n]];
      OneMoreFacet(first + second[..n], second[n], g, body);
      OneMoreFacet(second[..n], second[n], g, body);
      assert second == second[..n] + [second[n]];
    }
  }

  lemma OneMoreFacet(elements: seq<Elementary>, e: Elementary, g: Point, body: string)
    ensures var (w, more) := (Integrated(elements, g, body), Integrated(elements + [e], g, body));
            more.force == Add(w.force, e.df) && more.torque == Add(w.torque, Cross(Sub(e.c, g.v), e.df))
  {
    FirstFacets(elements, e, g.v, |elements|);
  }

  lemma {:induction false} FirstFacets(elements: seq<Elementary>, e: Elementary, about: Vec, n: nat)
    requires n <= |elements|
    ensures Resultant(elements + [e], n) == Resultant(elements, n)
    ensures MomentAbout(elements + [e], about, n) == MomentAbout(elements, about, n)
  {
    if n > 0 {
      FirstFacets(elements, e, about, n - 1);
    }
  }

  /** A single facet: its force, applied at its centre and transported to the point of integration. */
  lemma SingleFacet(e: Elementary, g: Point, body: string, k: Kinematics)
    requires g.frame == body
    ensures CanTransport(Screw(e.df, ZERO, Point(body, e.c), body), g, k)
    ensures Integrated([e], g, body) == Transported(Screw(e.df, ZERO, Point(body, e.c), body), g, k)
  {
    OneMoreFacet([], e, g, body);
    assert [] + [e] == [e];
  }

  lemma ShiftTerm(moment: Vec, g: Vec, p: Vec, c: Vec, force: Vec, df: Vec)
    ensures Add(Add(moment, Cross(Sub(g, p), force)), Cross(Sub(c, p), df))
         == Add(Add(moment, Cross(Sub(c, g), df)), Cross(Sub(g, p), Add(force, df)))
  {
    CrossAdd(force, df, Sub(g, p));
    CrossAdd(c, p, df);
    CrossAdd(c, g, df);
    CrossAdd(g, p, df);
  }

  /** Varignon: the moment about p is that about g plus the moment at g of the resultant about p. */
  lemma {:induction false} MomentAboutOther(elements: seq<Elementary>, g: Vec, p: Vec, n: nat)
    requires n <= |elements|
    ensures MomentAbout(elements, p, n)
         == Add(MomentAbout(elements, g, n), Cross(Sub(g, p), Resultant(elements, n)))
  {
    if n == 0 {
      CrossAdd(ZERO, ZERO, Sub(g, p));
    } else {
      MomentAboutOther(elements, g, p, n - 1);
      ShiftTerm(MomentAbout(elements, g, n - 1), g, p, elements[n - 1].c, Resultant(elements, n - 1), elements[n - 1].df);
    }
  }

  /** Transporting the integrated wrench to any point P, in whatever frame it is given, is the same as
      integrating with arms measured from P. */
  lemma IntegrationCommutesWithTransport(elements: seq<Elementary>, g: Point, p: Point, body: string, k: Kinematics)
    requires g.frame == body && Linked(k, body, p.frame)
    ensures CanTransport(Integrated(elements, g, body), p, k)
    ensures Transported(Integrated(elements, g, body), p, k)
         == Integrated(elements, Point(body, Coordinates(k, body, p)), body).(point := p)
  {
    MomentAboutOther(elements, g.v, Coordinates(k, body, p), |elements|);
  }
}
