/** The link routes that a concept reconciliation asks for (cmd/olw_worker/concept_reconcile.go). */
module ConceptRoutes {
  import opened Texts
  import opened WikiIndex
  import opened Wikilinks
  import opened WikilinkTheorems
  import ConceptLifecycle

  type Concept = ConceptLifecycle.Concept

  predicate Renamed(translations: map<string, string>, c: Concept) {
    c.currentID in translations && translations[c.currentID] != c.currentID
  }

  function Bare(id: string): string {
    "concepts/" + id
  }

  function Slugged(id: string, slug: string): string {
    Bare(id) + "-" + slug
  }

  /** The links that a renamed concept goes by: its old ID, bare or with its slug. */
  predicate Asks(translations: map<string, string>, c: Concept, from: string) {
    Renamed(translations, c) && (from == Bare(c.currentID) || (SafeConceptSlug(c.slug) && from == Slugged(c.currentID, c.slug)))
  }

  /** What such a link becomes: the same with the new ID. */
  function Target(translations: map<string, string>, c: Concept, from: string): string
    requires Asks(translations, c, from)
  {
    var stable := translations[c.currentID];
    if from == Bare(c.currentID) then Bare(stable) else Slugged(stable, c.slug)
  }

  /** No concept after the i-th asks for the same link. */
  predicate LastToAsk(concepts: seq<Concept>, translations: map<string, string>, i: nat, from: string)
    requires i < |concepts|
  {
    Asks(translations, concepts[i], from) && forall j :: i < j < |concepts| ==> !Asks(translations, concepts[j], from)
  }

  /** Exactly the links of renamed concepts are routed, each to the same link under the new ID. */
  ghost predicate RoutesRenamed(concepts: seq<Concept>, translations: map<string, string>, routes: Routes) {
    && (forall i, from :: 0 <= i < |concepts| && Asks(translations, concepts[i], from) ==> from in routes)
    && (forall from :: from in routes ==>
          exists i :: 0 <= i < |concepts| && LastToAsk(concepts, translations, i, from)
            && routes[from] == Target(translations, concepts[i], from))
  }

  lemma RoutesAreUnique(concepts: seq<Concept>, translations: map<string, string>, routes: Routes, routes': Routes)
    requires RoutesRenamed(concepts, translations, routes) && RoutesRenamed(concepts, translations, routes')
    ensures routes == routes'
  {
    hide Asks, Target;
    forall from | from in routes ensures from in routes' && routes'[from] == routes[from] {
      var i :| 0 <= i < |concepts| && LastToAsk(concepts, translations, i, from) && routes[from] == Target(translations, concepts[i], from);
      var j :| 0 <= j < |concepts| && LastToAsk(concepts, translations, j, from) && routes'[from] == Target(translations, concepts[j], from);
      assert i == j;
    }
    forall from | from in routes' ensures from in routes {
      var j :| 0 <= j < |concepts| && LastToAsk(concepts, translations, j, from);
    }
  }

  method BuildRoutes(concepts: seq<Concept>, translations: map<string, string>) returns (routes: Routes)
    ensures RoutesRenamed(concepts, translations, routes)
  {
    hide SafeConceptSlug, Asks, RoutesRenamed;
    routes := map[];
    NothingRouted(translations);
    for n := 0 to |concepts|
      invariant RoutesRenamed(concepts[..n], translations, routes)
    {
      var c := concepts[n];
      assert concepts[..n + 1] == concepts[..n] + [c];
      ghost var before := routes;
      RouteAdded(concepts[..n], translations, before, c);
      if c.currentID !in translations || translations[c.currentID] == c.currentID {
        continue;
      }
      var from, to := "concepts/" + c.currentID, "concepts/" + translations[c.currentID];
      routes := routes[from := to];
      if SafeConceptSlug(c.slug) {
        routes := routes[from + "-" + c.slug := to + "-" + c.slug];
      }
    }
    assert concepts[..|concepts|] == concepts;
  }

  lemma NothingRouted(translations: map<string, string>)
    ensures RoutesRenamed([], translations, map[])
  {
  }

  /** One more concept overrides what the ones before it asked for. */
  lemma RouteAdded(concepts: seq<Concept>, translations: map<string, string>, routes: Routes, c: Concept)
    requires RoutesRenamed(concepts, translations, routes)
    ensures !Renamed(translations, c) ==> RoutesRenamed(concepts + [c], translations, routes)
    ensures Renamed(translations, c) ==>
              var bare := routes[Bare(c.currentID) := Bare(translations[c.currentID])];
              var stable := translations[c.currentID];
              RoutesRenamed(concepts + [c], translations,
                            if SafeConceptSlug(c.slug) then bare[Slugged(c.currentID, c.slug) := Slugged(stable, c.slug)] else bare)
  {
    hide SafeConceptSlug;
    var routes' :=
      if !Renamed(translations, c) then routes
      else
        var stable := translations[c.currentID];
        var bare := routes[Bare(c.currentID) := Bare(stable)];
        if SafeConceptSlug(c.slug) then bare[Slugged(c.currentID, c.slug) := Slugged(stable, c.slug)] else bare;
    var all := concepts + [c];
    SluggedIsLonger(c.currentID, c.slug);
    forall from | from in routes'
      ensures exists i :: 0 <= i < |all| && LastToAsk(all, translations, i, from) && routes'[from] == Target(translations, all[i], from)
    {
      if Asks(translations, c, from) {
        assert all[|concepts|] == c && LastToAsk(all, translations, |concepts|, from);
      } else {
        LastStays(concepts, translations, routes, c, from);
      }
    }
    forall i, from | 0 <= i < |all| && Asks(translations, all[i], from) ensures from in routes' {
      assert i < |concepts| ==> all[i] == concepts[i];
    }
  }

  lemma SluggedIsLonger(id: string, slug: string)
    ensures |Slugged(id, slug)| > |Bare(id)|
  {
  }

  lemma LastStays(concepts: seq<Concept>, translations: map<string, string>, routes: Routes, c: Concept, from: string)
    requires RoutesRenamed(concepts, translations, routes) && from in routes && !Asks(translations, c, from)
    ensures var all := concepts + [c];
            exists i :: 0 <= i < |all| && LastToAsk(all, translations, i, from) && routes[from] == Target(translations, all[i], from)
  {
    hide Asks, Target;
    var all := concepts + [c];
    var i :| 0 <= i < |concepts| && LastToAsk(concepts, translations, i, from) && routes[from] == Target(translations, concepts[i], from);
    assert all[i] == concepts[i];
    assert forall j :: i < j < |all| ==> all[j] == if j < |concepts| then concepts[j] else c;
    assert LastToAsk(all, translations, i, from);
  }

  // ---- When the routes can be applied again ----

  predicate Asked(concepts: seq<Concept>, translations: map<string, string>, from: string) {
    exists i :: 0 <= i < |concepts| && Asks(translations, concepts[i], from)
  }

  /** No new link of a renamed concept is an old link of one. */
  predicate Unchained(concepts: seq<Concept>, translations: map<string, string>) {
    forall i :: 0 <= i < |concepts| && Renamed(translations, concepts[i]) ==>
      var c := concepts[i];
      var stable := translations[c.currentID];
      && !Asked(concepts, translations, TrimSpace(Bare(stable)))
      && (SafeConceptSlug(c.slug) ==> !Asked(concepts, translations, TrimSpace(Slugged(stable, c.slug))))
  }

  /** No two concepts ask for the same link. */
  ghost predicate AskApart(concepts: seq<Concept>, translations: map<string, string>) {
    forall i, j, from :: 0 <= i < |concepts| && 0 <= j < |concepts| && Asks(translations, concepts[i], from) ==>
      (Asks(translations, concepts[j], from) ==> i == j)
  }

  /** Routes lead one hop if no new link is an old one; and only then, when no two concepts ask for the same link. */
  lemma RoutesAreOneHop(concepts: seq<Concept>, translations: map<string, string>, routes: Routes)
    requires RoutesRenamed(concepts, translations, routes)
    ensures Unchained(concepts, translations) ==> OneHop(routes)
    ensures AskApart(concepts, translations) && OneHop(routes) ==> Unchained(concepts, translations)
  {
    hide SafeConceptSlug, TrimSpace;
    forall from | from in routes ensures Asked(concepts, translations, from) {
      var i :| 0 <= i < |concepts| && LastToAsk(concepts, translations, i, from);
    }
    if Unchained(concepts, translations) {
      forall from | from in routes ensures TrimSpace(routes[from]) !in routes {
        var i :| 0 <= i < |concepts| && LastToAsk(concepts, translations, i, from) && routes[from] == Target(translations, concepts[i], from);
      }
    }
    if AskApart(concepts, translations) && OneHop(routes) {
      forall i | 0 <= i < |concepts| && Renamed(translations, concepts[i])
        ensures Unrouted(concepts, translations, concepts[i])
      {
        OwnTargets(concepts, translations, routes, i);
        AskedAreRouted(concepts, translations, routes);
      }
    }
  }

  predicate Unrouted(concepts: seq<Concept>, translations: map<string, string>, c: Concept)
    requires Renamed(translations, c)
  {
    var stable := translations[c.currentID];
    && !Asked(concepts, translations, TrimSpace(Bare(stable)))
    && (SafeConceptSlug(c.slug) ==> !Asked(concepts, translations, TrimSpace(Slugged(stable, c.slug))))
  }

  lemma AskedAreRouted(concepts: seq<Concept>, translations: map<string, string>, routes: Routes)
    requires RoutesRenamed(concepts, translations, routes)
    ensures forall from :: Asked(concepts, translations, from) ==> from in routes
  {
    hide Asks;
  }

  /** A concept that shares no link has its own targets. */
  lemma OwnTargets(concepts: seq<Concept>, translations: map<string, string>, routes: Routes, i: nat)
    requires RoutesRenamed(concepts, translations, routes) && AskApart(concepts, translations)
    requires i < |concepts| && Renamed(translations, concepts[i])
    ensures var c := concepts[i];
            var stable := translations[c.currentID];
            && Bare(c.currentID) in routes && routes[Bare(c.currentID)] == Bare(stable)
            && (SafeConceptSlug(c.slug) ==>
                  Slugged(c.currentID, c.slug) in routes && routes[Slugged(c.currentID, c.slug)] == Slugged(stable, c.slug))
  {
    hide SafeConceptSlug;
    var c := concepts[i];
    SluggedIsLonger(c.currentID, c.slug);
    forall from | Asks(translations, c, from) ensures from in routes && routes[from] == Target(translations, c, from) {
      var j :| 0 <= j < |concepts| && LastToAsk(concepts, translations, j, from) && routes[from] == Target(translations, concepts[j], from);
      assert j == i;
    }
    assert Asks(translations, c, Bare(c.currentID));
    assert SafeConceptSlug(c.slug) ==> Asks(translations, c, Slugged(c.currentID, c.slug));
  }

  /** An ID that cannot be confused with an ID and a slug, and loses nothing when it is trimmed. */
  predicate PlainID(id: string) {
    '-' !in id && (id != "" ==> !IsSpace(id[|id| - 1]))
  }

  lemma TrimmedAlready(s: string)
    requires s != "" && !IsSpace(s[0]) && !IsSpace(s[|s| - 1])
    ensures TrimSpace(s) == s
  {
  }

  lemma {:induction false} TrimmedEnd(s: string)
    ensures TrimRight(s) != "" ==> !IsSpace(TrimRight(s)[|TrimRight(s)| - 1])
  {
    if s != "" && IsSpace(s[|s| - 1]) {
      TrimmedEnd(s[..|s| - 1]);
    }
  }

  lemma LinksAreTrimmed(id: string, slug: string)
    requires PlainID(id)
    ensures TrimSpace(Bare(id)) == Bare(id)
    ensures SafeConceptSlug(slug) ==> TrimSpace(Slugged(id, slug)) == Slugged(id, slug)
  {
    TrimmedAlready(Bare(id));
    if SafeConceptSlug(slug) {
      TrimmedEnd(TrimLeft(slug));
      assert Slugged(id, slug)[|Slugged(id, slug)| - 1] == slug[|slug| - 1];
      TrimmedAlready(Slugged(id, slug));
    }
  }

  /** Links of different IDs are different, with or without slugs. */
  lemma LinksDiffer(a: string, b: string, slug: string, slug': string)
    requires '-' !in a && '-' !in b && a != b
    ensures Bare(a) != Bare(b) && Bare(a) != Slugged(b, slug') && Slugged(a, slug) != Bare(b) && Slugged(a, slug) != Slugged(b, slug')
  {
    DashAt(a, slug);
    DashAt(b, slug');
    assert Bare(a)[9..] == a && Bare(b)[9..] == b;
    assert '-' !in Bare(a) && '-' !in Bare(b);
    assert Slugged(a, slug)[|Bare(a)|] == '-' && Slugged(b, slug')[|Bare(b)|] == '-';
    assert Slugged(a, slug)[..|Bare(a)|] == Bare(a) && Slugged(b, slug')[..|Bare(b)|] == Bare(b);
  }

  lemma DashAt(id: string, slug: string)
    requires '-' !in id
    ensures forall i :: 0 <= i < |Bare(id)| ==> Slugged(id, slug)[i] != '-'
    ensures Slugged(id, slug)[|Bare(id)|] == '-'
  {
    forall i | 0 <= i < |Bare(id)| ensures Slugged(id, slug)[i] != '-' {
      assert Slugged(id, slug)[i] == Bare(id)[i] && (i >= 9 ==> Bare(id)[i] == id[i - 9] && id[i - 9] in id);
    }
  }

  /** With IDs that hold no dash, it is enough that no renamed concept's new ID is another one's old ID. */
  lemma PlainIDsAreUnchained(concepts: seq<Concept>, translations: map<string, string>)
    requires forall c :: c in concepts && Renamed(translations, c) ==> PlainID(c.currentID) && PlainID(translations[c.currentID])
    requires forall c, d :: c in concepts && d in concepts && Renamed(translations, c) && Renamed(translations, d) ==>
               translations[c.currentID] != d.currentID
    ensures Unchained(concepts, translations)
  {
    hide SafeConceptSlug, TrimSpace, PlainID, Bare, Slugged;
    forall i | 0 <= i < |concepts| && Renamed(translations, concepts[i]) ensures Unrouted(concepts, translations, concepts[i]) {
      var c := concepts[i];
      LinksAreTrimmed(translations[c.currentID], c.slug);
      forall j | 0 <= j < |concepts| && Renamed(translations, concepts[j])
        ensures !Asks(translations, concepts[j], Bare(translations[c.currentID]))
        ensures !Asks(translations, concepts[j], Slugged(translations[c.currentID], c.slug))
      {
        var d := concepts[j];
        assert c in concepts && d in concepts;
        PlainHasNoDash(translations[c.currentID]);
        PlainHasNoDash(d.currentID);
        LinksDiffer(translations[c.currentID], d.currentID, c.slug, d.slug);
      }
    }
  }

  lemma PlainHasNoDash(id: string)
    requires PlainID(id)
    ensures '-' !in id
  {
  }

  // ---- Rewriting with the routes ----

  lemma PlainConcat(p: string, q: string)
    requires PlainText(p) && PlainText(q)
    ensures PlainText(p + q)
  {
  }

  lemma RoutePlain(id: string, slug: string)
    requires PlainText(id) && PlainText(slug)
    ensures PlainText(Bare(id)) && PlainText(Slugged(id, slug))
    ensures '`' !in Bare(id) && '`' !in Slugged(id, slug)
  {
    PlainConcat("concepts/", id);
    PlainConcat(Bare(id), "-");
    PlainConcat(Bare(id) + "-", slug);
  }

  /** IDs and slugs without brackets, backticks, newlines, '#' and '|' make routes that can be rewritten with again. */
  lemma PlainNamesMakePlainRoutes(concepts: seq<Concept>, translations: map<string, string>, routes: Routes)
    requires RoutesRenamed(concepts, translations, routes)
    requires forall c :: c in concepts ==> PlainText(c.currentID) && PlainText(c.slug)
    requires forall id :: id in translations ==> PlainText(translations[id])
    ensures PlainRoutes(routes)
  {
    hide PlainText, SafeConceptSlug, Bare, Slugged;
    forall from | from in routes ensures '`' !in from && PlainText(routes[from]) {
      var i :| 0 <= i < |concepts| && LastToAsk(concepts, translations, i, from) && routes[from] == Target(translations, concepts[i], from);
      var c := concepts[i];
      assert c in concepts;
      RoutePlain(c.currentID, c.slug);
      RoutePlain(translations[c.currentID], c.slug);
    }
  }

  /** Rewriting all of a run's pages a second time changes none of them, when no new link is an old one. */
  lemma RewritingTwiceWithRoutesIsOnce(concepts: seq<Concept>, translations: map<string, string>, routes: Routes, s: string)
    requires RoutesRenamed(concepts, translations, routes) && Unchained(concepts, translations)
    requires forall c :: c in concepts ==> PlainText(c.currentID) && PlainText(c.slug)
    requires forall id :: id in translations ==> PlainText(translations[id])
    ensures Rewrite(routes, Rewrite(routes, s, true), true) == Rewrite(routes, s, true)
  {
    hide RoutesRenamed, Unchained, PlainText, OneHop, PlainRoutes, Rewrite;
    PlainNamesMakePlainRoutes(concepts, translations, routes);
    RoutesAreOneHop(concepts, translations, routes);
    RewritingTwiceIsOnce(routes, s);
  }
}
