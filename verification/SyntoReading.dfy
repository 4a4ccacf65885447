/** When the concepts of a project can be mapped to the articles of INDEX.json, read off the articles. */
module SyntoReading {
  import opened Options
  import opened ByteStrings
  import opened WikiIndex
  import opened ConceptReconcile
  import opened SyntoEntities

  // ---- The articles ----

  predicate ArticleValid(a: Article) {
    (a.id == "" || ValidSourceID(a.id)) && (a.entityID == "" || ValidSyntoEntityID(a.entityID)) && a.slug.Some?
  }

  /** Two articles have different IDs and different folded slugs, and do not share an entity. */
  predicate ArticlesApart(f: Letters, a: Article, b: Article) {
    && a.id != b.id && a.slug.Some? && b.slug.Some? && f.lower(a.slug.value) != f.lower(b.slug.value)
    && (!a.root && !b.root && a.entityID != "" ==> a.entityID != b.entityID)
  }

  predicate ArticlesAgree(f: Letters, articles: seq<Article>) {
    && (forall i :: 0 <= i < |articles| ==> ArticleValid(articles[i]))
    && forall i, j :: 0 <= i < j < |articles| ==> ArticlesApart(f, articles[i], articles[j])
  }

  ghost predicate IDsSeen(articles: seq<Article>, t: Tables) {
    forall x :: x in t.seenIDs <==> exists a :: a in articles && a.id == x
  }

  ghost predicate SlugsSeen(f: Letters, articles: seq<Article>, t: Tables) {
    && (forall a :: a in articles ==> a.slug.Some? && f.lower(a.slug.value) in t.seenSlugs)
    && (forall k :: k in t.seenSlugs ==> exists a :: a in articles && a.slug.Some? && f.lower(a.slug.value) == k)
  }

  predicate Listed(f: Letters, t: Tables, a: Article) {
    && a.slug.Some? && a.id in t.entitylessIDs && t.entitylessIDs[a.id] == a.slug.value
    && f.lower(a.slug.value) in t.entitylessSlugs && t.entitylessSlugs[f.lower(a.slug.value)] == a.id
  }

  ghost predicate OrdinariesIn(f: Letters, articles: seq<Article>, t: Tables) {
    && (forall a :: Ordinary(articles, a) ==> Listed(f, t, a))
    && (forall x :: x in t.entitylessIDs ==> exists a :: Ordinary(articles, a) && a.id == x)
  }

  /** What the tables hold beside the owners. */
  ghost predicate Tabulates(f: Letters, articles: seq<Article>, t: Tables) {
    IDsSeen(articles, t) && SlugsSeen(f, articles, t) && OrdinariesIn(f, articles, t)
  }

  lemma SeenSnoc(f: Letters, articles: seq<Article>, t: Tables, last: Article)
    requires IDsSeen(articles, t) && SlugsSeen(f, articles, t) && ArticleFits(f, t, last)
    ensures IDsSeen(articles + [last], AddArticle(f, t, last)) && SlugsSeen(f, articles + [last], AddArticle(f, t, last))
  {
    hide ValidSourceID, ValidSyntoEntityID;
    var all := articles + [last];
    assert last in all && forall a :: a in articles ==> a in all;
  }

  lemma OrdinariesSnoc(f: Letters, articles: seq<Article>, t: Tables, last: Article)
    requires IDsSeen(articles, t) && SlugsSeen(f, articles, t) && OrdinariesIn(f, articles, t) && ArticleFits(f, t, last)
    ensures OrdinariesIn(f, articles + [last], AddArticle(f, t, last))
  {
    hide Ordinary, Owner, ValidSourceID, ValidSyntoEntityID, OrdinariesIn, SlugsSeen, IDsSeen;
    NamedSnoc(articles, last);
    var all, t' := articles + [last], AddArticle(f, t, last);
    forall a | Ordinary(all, a) ensures Listed(f, t', a) {
      if Ordinary(articles, a) {
        StillListed(f, articles, t, last, a);
      }
    }
    forall x | x in t'.entitylessIDs ensures exists a :: Ordinary(all, a) && a.id == x {
      if x in t.entitylessIDs {
        var a := SomeOrdinary(f, articles, t, x);
        assert Ordinary(all, a);
      } else {
        assert Ordinary(all, last);
      }
    }
    ListedAre(f, all, t');
  }

  lemma ListedAre(f: Letters, articles: seq<Article>, t: Tables)
    requires forall a :: Ordinary(articles, a) ==> Listed(f, t, a)
    requires forall x :: x in t.entitylessIDs ==> exists a :: Ordinary(articles, a) && a.id == x
    ensures OrdinariesIn(f, articles, t)
  {
    hide Ordinary, Listed;
  }

  lemma SomeOrdinary(f: Letters, articles: seq<Article>, t: Tables, x: string) returns (a: Article)
    requires OrdinariesIn(f, articles, t) && x in t.entitylessIDs
    ensures Ordinary(articles, a) && a.id == x
  {
    hide Ordinary, Listed;
    a :| Ordinary(articles, a) && a.id == x;
  }

  lemma StillListed(f: Letters, articles: seq<Article>, t: Tables, last: Article, a: Article)
    requires IDsSeen(articles, t) && SlugsSeen(f, articles, t) && OrdinariesIn(f, articles, t) && ArticleFits(f, t, last)
    requires Ordinary(articles, a)
    ensures Listed(f, AddArticle(f, t, last), a)
  {
    hide ValidSourceID, ValidSyntoEntityID;
    assert a in articles && Listed(f, t, a);
  }

  lemma TabulatesSnoc(f: Letters, articles: seq<Article>, t: Tables, last: Article)
    requires Tabulates(f, articles, t) && ArticleFits(f, t, last)
    ensures Tabulates(f, articles + [last], AddArticle(f, t, last))
  {
    hide IDsSeen, SlugsSeen, OrdinariesIn, ArticleFits, AddArticle;
    SeenSnoc(f, articles, t, last);
    OrdinariesSnoc(f, articles, t, last);
  }

  lemma OrdinaryIsArticle(articles: seq<Article>, a: Article)
    ensures Ordinary(articles, a) ==> a in articles && a.slug.Some?
  {
  }

  lemma NothingTabulated(f: Letters)
    ensures Tabulates(f, [], NO_TABLES)
  {
  }

  lemma {:induction false} BuildTabulates(f: Letters, articles: seq<Article>)
    requires Build(f, articles).Some?
    ensures Tabulates(f, articles, Build(f, articles).value)
  {
    hide ArticleFits, AddArticle, Tabulates;
    if articles == [] {
      NothingTabulated(f);
    } else {
      var init, last := articles[..|articles| - 1], articles[|articles| - 1];
      BuildTabulates(f, init);
      TabulatesSnoc(f, init, Build(f, init).value, last);
      assert articles == init + [last];
    }
  }

  /** One more article fits exactly when it is valid and apart from all before it. */
  lemma FitsExactly(f: Letters, articles: seq<Article>, t: Tables, a: Article)
    requires Build(f, articles) == Some(t)
    ensures ArticleFits(f, t, a) <==> ArticleValid(a) && forall b :: b in articles ==> ArticlesApart(f, b, a)
  {
    hide Build, ValidSourceID, ValidSyntoEntityID, Owner, Ordinary, OrdinaryFrom;
    TablesReflect(f, articles);
    BuildTabulates(f, articles);
    forall b | b in articles && !b.root && b.entityID != "" ensures b.slug.Some? && Owner(articles, b) {
      OwnerIs(articles, b);
    }
    forall b | Owner(articles, b) ensures b in articles && !b.root && b.slug.Some? && b.entityID != "" {
      OwnerParts(articles, b);
    }
  }

  lemma OwnerIs(articles: seq<Article>, a: Article)
    requires a in articles && !a.root && a.entityID != ""
    ensures a.slug.Some? ==> Owner(articles, a)
  {
  }

  lemma OwnerParts(articles: seq<Article>, a: Article)
    requires Owner(articles, a)
    ensures a in articles && !a.root && a.slug.Some? && a.entityID != ""
  {
  }

  lemma {:induction false} BuildsExactly(f: Letters, articles: seq<Article>)
    ensures Build(f, articles).Some? <==> ArticlesAgree(f, articles)
  {
    hide ArticleFits, AddArticle, ArticleValid, ArticlesApart;
    if articles != [] {
      var init, last := articles[..|articles| - 1], articles[|articles| - 1];
      BuildsExactly(f, init);
      if Build(f, init).Some? {
        FitsExactly(f, init, Build(f, init).value, last);
        if ArticlesAgree(f, articles) {
          forall b | b in init ensures ArticlesApart(f, b, last) {
            var i :| 0 <= i < |init| && init[i] == b;
          }
        }
      }
    }
  }

  // ---- One concept ----

  /** An article owns exactly this slug; no ordinary one has the ID or the folded slug; and no owner of the ID has another slug. */
  ghost predicate CanBind(f: Letters, articles: seq<Article>, current: string, slug: string) {
    && (exists a :: Owner(articles, a) && a.slug.value == slug)
    && (forall a :: Ordinary(articles, a) ==> a.id != current && f.lower(a.slug.value) != f.lower(slug))
    && (forall a :: Owner(articles, a) && a.id == current != "" ==> a.slug.value == slug)
  }

  /** An ordinary article has the folded slug, and either the ID too, or no article has the ID. */
  ghost predicate CanSkip(f: Letters, articles: seq<Article>, current: string, slug: string) {
    exists a :: Ordinary(articles, a) && f.lower(a.slug.value) == f.lower(slug)
      && ((a.id == current && f.equalFold(a.slug.value, slug)) || forall b :: b in articles ==> b.id != current)
  }

  lemma BindsExactly(f: Letters, articles: seq<Article>, t: Tables, current: string, slug: string)
    requires Build(f, articles) == Some(t)
    ensures Bindable(f, t, current, slug) <==> CanBind(f, articles, current, slug)
  {
    hide Build, Owner, Ordinary, Injective;
    TablesReflect(f, articles);
    BuildTabulates(f, articles);
    NoIDIsEmpty(f, articles, t);
    if current in t.byID {
      var a :| Owner(articles, a) && a.id == current && a.entityID == t.byID[current];
    }
  }

  lemma {:induction false} NoIDIsEmpty(f: Letters, articles: seq<Article>, t: Tables)
    requires Build(f, articles) == Some(t)
    ensures "" !in t.byID
  {
    hide ArticleFits;
    if articles != [] {
      var init := articles[..|articles| - 1];
      NoIDIsEmpty(f, init, Build(f, init).value);
    }
  }

  lemma SkipsExactly(f: Letters, articles: seq<Article>, t: Tables, current: string, slug: string)
    requires Build(f, articles) == Some(t)
    ensures Skippable(f, t, current, slug) <==> CanSkip(f, articles, current, slug)
  {
    hide Build, Ordinary, Owner, OwnersIn, IDsFrom, SlugsFrom, EntitiesFrom;
    TablesReflect(f, articles);
    BuildTabulates(f, articles);
    forall a | Ordinary(articles, a) ensures a in articles && a.slug.Some? {
      OrdinaryIsArticle(articles, a);
    }
    if Skippable(f, t, current, slug) {
      var a :| Ordinary(articles, a) && f.lower(a.slug.value) == f.lower(slug);
      if current in t.entitylessIDs {
        assert a.id == current;
      }
    }
  }

  /**
   * The mapping succeeds exactly when the prior rows, the edges and the articles are valid and apart, every active entity has
   * its article, and every concept has one to be bound to, or is one without an entity.
   */
  lemma MapsExactly(f: Letters, index: Index, concepts: map<string, string>, prior: seq<Row>)
    ensures Mappable(f, index, concepts, prior) <==>
              && PriorDistinct(prior) && (forall i :: 0 <= i < |prior| ==> PriorRowOk(prior[i]))
              && (forall i :: 0 <= i < |index.edges| ==> index.edges[i].name != "" && ValidSyntoEntityID(index.edges[i].entityID))
              && ArticlesAgree(f, index.articles)
              && (forall e :: e in index.activeEntities ==> exists a :: Owner(index.articles, a) && a.entityID == e)
              && (forall c :: c in concepts ==> CanBind(f, index.articles, c, concepts[c]) || CanSkip(f, index.articles, c, concepts[c]))
              && (forall c, d :: c in concepts && d in concepts && c != d && concepts[c] == concepts[d] ==>
                    !(CanBind(f, index.articles, c, concepts[c]) && CanBind(f, index.articles, d, concepts[d])))
  {
    hide Build, PriorDistinct, PriorRowOk, ValidSyntoEntityID, ArticlesAgree, CanBind, CanSkip, Bindable, Skippable, Owner;
    BuildsExactly(f, index.articles);
    if Build(f, index.articles).Some? {
      var t := Build(f, index.articles).value;
      ActiveExactly(f, index.articles, t, index.activeEntities);
      forall c | c in concepts
        ensures Bindable(f, t, c, concepts[c]) <==> CanBind(f, index.articles, c, concepts[c])
        ensures Skippable(f, t, c, concepts[c]) <==> CanSkip(f, index.articles, c, concepts[c])
      {
        BindsExactly(f, index.articles, t, c, concepts[c]);
        SkipsExactly(f, index.articles, t, c, concepts[c]);
      }
    }
  }

  lemma ActiveExactly(f: Letters, articles: seq<Article>, t: Tables, active: set<string>)
    requires Build(f, articles) == Some(t)
    ensures active <= t.byEntity.Keys <==> forall e :: e in active ==> exists a :: Owner(articles, a) && a.entityID == e
  {
    hide Build, Owner, Ordinary, IDsFrom, SlugsFrom, OrdinaryFrom;
    TablesReflect(f, articles);
  }
}
