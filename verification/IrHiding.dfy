/** Declarations that are named like an id class: which of the two is built depends on the order of visits. */
module IrHiding {
  import opened Options
  import opened Results
  import opened IrInput
  import opened IrLayout
  import opened IrBuilder
  import opened IrTheorems
  import opened IrIds
  import opened IrOrders
  import opened IrVisits

  // --- the class that is visited first -------------------------------------------------------------------------------

  lemma UpIsPath(inp: Input, path: seq<string>)
    requires IsUp(inp, path)
    ensures IsPath(inp, path)
  {
    forall i | 0 <= i < |path| - 1 ensures DependsOn(inp, path[i], path[i + 1]) {
      assert inp.decls[path[i]].superclass == Some(path[i + 1]);
    }
  }

  lemma UsedOwn(inp: Input, ids: map<string, Origin>, n: string)
    requires n !in ids && Used(inp, ids, n).Some?
    ensures n in inp.decls && Used(inp, ids, n) == Some(inp.decls[n])
  {}

  /** The superclasses of the class that is visited first are built from their own declarations. */
  lemma FirstUnhidden(inp: Input, classes: map<string, IrClass>, order: seq<string>, ids: map<string, Origin>, n: string, y: string)
    requires Completed(inp, classes, order, ids) && VisitedFirst(inp, n, classes, order, ids) && Above(inp, n, y)
    ensures y in classes && y in order && y !in ids && y in inp.decls
  {
    hide Made, IsUp, IsPath, Reaches, IdName, Warranted, Complete, Origins;
    var k: nat, k': nat :| FirstVisit(inp, n, classes, order, ids, k, k');
    var path: seq<string> :| |path| >= 1 && path[0] == n && path[|path| - 1] == y && IsUp(inp, path);
    UpIsPath(inp, path);
    FirstVisitDescends(inp, classes, order, ids, path, k, |path| - 1);
    assert y in order[..k];
    MadeAt(inp, classes, order, ids, [], y);
    UsedOwn(inp, ids, y);
  }

  lemma {:induction false} InstanceIsAbove(inp: Input, classes: map<string, IrClass>, order: seq<string>, ids: map<string, Origin>, n: string, r: string)
    requires Inv(inp, classes, order, ids, []) && n in classes && n in order && classes[n].IsInstanceOf(r)
    requires forall y :: Above(inp, n, y) ==> y !in ids && y in inp.decls
    ensures Above(inp, n, r)
    decreases Position(order, n)
  {
    hide Made, Above, Position, Origins;
    AboveSelf(inp, n);
    SuperclassFirst(inp, classes, order, ids, [], n);
    if n != r {
      var s := inp.decls[n].superclass.value;
      forall y | Above(inp, s, y) ensures y !in ids && y in inp.decls {
        AboveOnward(inp, n, s, y);
      }
      InstanceIsAbove(inp, classes, order, ids, s, r);
      AboveOnward(inp, n, s, r);
    }
  }

  /** When `o` is visited first, a declaration named like its id class is hidden, unless `o` leads to it. */
  lemma FirstVisitHides(inp: Input, classes: map<string, IrClass>, order: seq<string>, ids: map<string, Origin>, root: string, o: string)
    requires Completed(inp, classes, order, ids) && VisitedFirst(inp, o, classes, order, ids)
    requires RootsOnTop(inp) && PrefixedBelow(inp) && NeedsId(inp, root, o) && IdName(root, o) in inp.decls
    ensures Used(inp, ids, IdName(root, o)) ==
            Some(if Follows(inp, map[], o, IdName(root, o)) then inp.decls[IdName(root, o)] else IdDecl(root, inp.decls[o]))
    ensures IdName(root, o) in ids <==> !Follows(inp, map[], o, IdName(root, o))
  {
    hide Inv, Complete, Warranted, Above, Reaches, IdName, IdDecl, Follows, Position, PrefixedBelow, RootsOnTop;
    var h := IdName(root, o);
    var k: nat, k': nat :| FirstVisit(inp, o, classes, order, ids, k, k');
    Listed(inp, classes, order, ids, []);
    IdNameIsLonger(root, o);
    forall y | Above(inp, o, y) ensures y !in ids && y in inp.decls {
      FirstUnhidden(inp, classes, order, ids, o, y);
    }
    AboveSelf(inp, o);
    FirstUnhidden(inp, classes, order, ids, o, o);
    InstanceAsDeclared(inp, classes, order, ids, o, root);
    assert h in order[..k'];
    FirstVisitLeads(inp, classes, order, ids, o, h);
    if Follows(inp, map[], o, h) {
      FirstVisitPath(inp, classes, order, ids, o, h, k);
      InFirstStage(inp, classes, order, ids, o, h, k, k');
    } else {
      var i :| 0 <= i < k' && order[i] == h;
      if i < k { ReachesOther(inp, o, h); }
      InstanceIsAbove(inp, classes, order, ids, o, ids[h].root);
      FirstIdIsOwn(inp, classes, order, ids, root, o);
      OriginOf(inp, classes, order, ids, h);
    }
  }

  lemma IdNameIsLonger(root: string, o: string)
    ensures IdName(root, o) != o
  {
    assert |IdName(root, o)| > |o|;
  }

  lemma InFirstStage(inp: Input, classes: map<string, IrClass>, order: seq<string>, ids: map<string, Origin>, n: string, h: string, k: nat, k': nat)
    requires Inv(inp, classes, order, ids, []) && FirstVisit(inp, n, classes, order, ids, k, k') && n in order && h in order[..Position(order, n)]
    ensures h !in ids
  {
    hide Made, Reaches, Above, IdName, IrClass.IsInstanceOf, Origins, Position;
    var p :| 0 <= p < k && order[p] == n;
    PositionOf(inp, classes, order, ids, p);
  }

  lemma FirstIdIsOwn(inp: Input, classes: map<string, IrClass>, order: seq<string>, ids: map<string, Origin>, root: string, o: string)
    requires Completed(inp, classes, order, ids) && RootsOnTop(inp) && PrefixedBelow(inp) && NeedsId(inp, root, o) && IdName(root, o) in ids
    requires Above(inp, o, ids[IdName(root, o)].orig) && Above(inp, o, ids[IdName(root, o)].root)
    ensures ids[IdName(root, o)] == Origin(root, o)
  {
    hide Complete, Warranted, Above, IdName, Made;
    var origin := ids[IdName(root, o)];
    OriginOf(inp, classes, order, ids, IdName(root, o));
    RootAbove(inp, o, origin.orig, origin.root);
    IdNameIsInjective(root, o, origin.root, origin.orig);
  }

  /** When `h` is visited first it is built from its own declaration. */
  lemma FirstVisitBuildsOwn(inp: Input, classes: map<string, IrClass>, order: seq<string>, ids: map<string, Origin>, h: string)
    requires Completed(inp, classes, order, ids) && VisitedFirst(inp, h, classes, order, ids)
    ensures h in inp.decls && h !in ids && Used(inp, ids, h) == Some(inp.decls[h])
  {
    hide Completed, VisitedFirst, Above;
    AboveSelf(inp, h);
    FirstUnhidden(inp, classes, order, ids, h, h);
  }

  /** The declaration `h` is named like the id class of `o`. The builds that visit `o` and `h` first make `h` alike exactly
      when `o` leads to `h`, or both declarations come out alike. If not, the builds differ. */
  lemma HidingDependsOnOrder(inp: Input, classes: map<string, IrClass>, order: seq<string>, ids: map<string, Origin>, rank: map<string, nat>,
                             classes': map<string, IrClass>, order': seq<string>, ids': map<string, Origin>, rank': map<string, nat>,
                             root: string, o: string)
    requires Completed(inp, classes, order, ids) && VisitedFirst(inp, o, classes, order, ids)
    requires Completed(inp, classes', order', ids') && VisitedFirst(inp, IdName(root, o), classes', order', ids')
    requires RootsOnTop(inp) && PrefixedBelow(inp) && NeedsId(inp, root, o) && IdName(root, o) in inp.decls
    requires Ranked(inp, Declared(inp, classes, ids), rank) && Ranked(inp, Declared(inp, classes', ids'), rank')
    requires OrderFree(inp, Declared(inp, classes, ids), ids, rank) && OrderFree(inp, Declared(inp, classes', ids'), ids', rank')
    ensures MadeAlike(inp, classes, ids, rank, classes', ids', IdName(root, o)) <==>
            Follows(inp, map[], o, IdName(root, o)) || IdComesOutAlike(inp, classes, ids, rank, root, o)
    ensures classes == classes' ==> Follows(inp, map[], o, IdName(root, o)) || IdComesOutAlike(inp, classes, ids, rank, root, o)
  {
    hide Completed, VisitedFirst, RootsOnTop, PrefixedBelow, Above, Ranked, OrderFree, IdName, IdDecl, Follows, Used, PlainLens, Laid, Sum, AllFixed;
    var h := IdName(root, o);
    FirstVisitHides(inp, classes, order, ids, root, o);
    FirstVisitBuildsOwn(inp, classes', order', ids', h);
    HiddenIsThere(inp, classes, order, ids, h);
    HiddenIsThere(inp, classes', order', ids', h);
    ClassIsLaid(inp, classes, order, ids, rank, h);
    BuildsAgreeExactly(inp, classes, order, ids, rank, classes', order', ids', rank');
  }

  lemma HiddenIsThere(inp: Input, classes: map<string, IrClass>, order: seq<string>, ids: map<string, Origin>, h: string)
    requires Completed(inp, classes, order, ids) && h in inp.decls
    ensures h in classes
  {
    hide Inv, Warranted;
  }

  /** The id class of `o` comes out like the class that is declared under its name. */
  ghost predicate IdComesOutAlike(inp: Input, classes: map<string, IrClass>, ids: map<string, Origin>, rank: map<string, nat>, root: string, o: string)
    requires Ranked(inp, Declared(inp, classes, ids), rank) && o in inp.decls && IdName(root, o) in inp.decls
  {
    var decls, h := Declared(inp, classes, ids), IdName(root, o);
    h in decls &&
    match PlainLens(inp, decls, rank, h, decls[h].members)
    case Ok(lens) => Alike(inp.version, IdDecl(root, inp.decls[o]), inp.decls[h], lens)
    case Err(_) => false
  }
}
