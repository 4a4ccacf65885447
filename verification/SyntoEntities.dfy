/** Reading concept identities off Synto's INDEX.json (cmd/olw_worker/synto_adapter.go). */
module SyntoEntities {
  import opened Options
  import opened ByteStrings
  import opened WikiIndex
  import opened ConceptReconcile

  /** An article row with its normalised slug, or None when its path cannot be normalised; `root` marks index and log. */
  datatype Article = Article(id: string, entityID: string, slug: Option<string>, root: bool)

  datatype Edge = Edge(name: string, entityID: string, sourcePath: string)

  datatype Index = Index(articles: seq<Article>, edges: seq<Edge>, activeEntities: set<string>)

  /** strings.ToLower and strings.EqualFold. */
  datatype Letters = Letters(lower: string -> string, equalFold: (string, string) -> bool)

  /** The lookup maps of mapSyntoEntityIDsFromIndexTruth. */
  datatype Tables = Tables(
    byID: map<string, string>,
    bySlug: map<string, string>,
    byEntity: map<string, string>,
    entitylessIDs: map<string, string>,
    entitylessSlugs: map<string, string>,
    seenIDs: set<string>,
    seenSlugs: set<string>)

  const NO_TABLES := Tables(map[], map[], map[], map[], map[], {}, {})

  predicate ArticleFits(f: Letters, t: Tables, a: Article) {
    && (a.id == "" || ValidSourceID(a.id)) && (a.entityID == "" || ValidSyntoEntityID(a.entityID))
    && a.slug.Some?
    && a.id !in t.seenIDs && f.lower(a.slug.value) !in t.seenSlugs
    && (!a.root && a.entityID != "" ==>
          && (a.id != "" ==> a.id !in t.byID)
          && f.lower(a.slug.value) !in t.bySlug
          && (a.entityID in t.byEntity ==> t.byEntity[a.entityID] == a.slug.value))
  }

  function AddArticle(f: Letters, t: Tables, a: Article): Tables
    requires ArticleFits(f, t, a)
  {
    var slug, key := a.slug.value, f.lower(a.slug.value);
    var seen := t.(seenIDs := t.seenIDs + {a.id}, seenSlugs := t.seenSlugs + {key});
    if a.root then seen
    else if a.entityID == "" then
      seen.(entitylessIDs := t.entitylessIDs[a.id := slug], entitylessSlugs := t.entitylessSlugs[key := a.id])
    else
      seen.(byID := if a.id != "" then t.byID[a.id := a.entityID] else t.byID,
            bySlug := t.bySlug[key := slug],
            byEntity := t.byEntity[a.entityID := slug])
  }

  function Build(f: Letters, articles: seq<Article>): Option<Tables> {
    if articles == [] then Some(NO_TABLES)
    else
      var t := Build(f, articles[..|articles| - 1]);
      var a := articles[|articles| - 1];
      if t.Some? && ArticleFits(f, t.value, a) then Some(AddArticle(f, t.value, a)) else None
  }

  method BuildTables(f: Letters, articles: seq<Article>) returns (r: Option<Tables>)
    ensures r == Build(f, articles)
  {
    hide ArticleFits, AddArticle;
    var t := NO_TABLES;
    for n := 0 to |articles|
      invariant Build(f, articles[..n]) == Some(t)
    {
      assert articles[..n + 1][..n] == articles[..n];
      if !ArticleFits(f, t, articles[n]) {
        BuildFails(f, articles, n + 1);
        return None;
      }
      t := AddArticle(f, t, articles[n]);
    }
    assert articles[..|articles|] == articles;
    r := Some(t);
  }

  lemma {:induction false} BuildFails(f: Letters, articles: seq<Article>, n: nat)
    requires n <= |articles| && Build(f, articles[..n]) == None
    ensures Build(f, articles) == None
    decreases |articles| - n
  {
    hide ArticleFits, AddArticle;
    if n == |articles| {
      assert articles[..n] == articles;
    } else {
      assert articles[..n + 1][..n] == articles[..n];
      BuildFails(f, articles, n + 1);
    }
  }

  // ---- What the tables say about the articles ----

  predicate Named(articles: seq<Article>, a: Article) {
    a in articles && !a.root && a.slug.Some?
  }

  /** An article that owns an entity. */
  predicate Owner(articles: seq<Article>, a: Article) {
    Named(articles, a) && a.entityID != ""
  }

  predicate Ordinary(articles: seq<Article>, a: Article) {
    Named(articles, a) && a.entityID == ""
  }

  ghost predicate OwnersIn(f: Letters, articles: seq<Article>, t: Tables) {
    forall a :: Owner(articles, a) ==>
      && (a.id != "" ==> a.id in t.byID && t.byID[a.id] == a.entityID)
      && f.lower(a.slug.value) in t.bySlug && t.bySlug[f.lower(a.slug.value)] == a.slug.value
      && a.entityID in t.byEntity && t.byEntity[a.entityID] == a.slug.value
  }

  ghost predicate IDsFrom(articles: seq<Article>, t: Tables) {
    forall id :: id in t.byID ==> exists a :: Owner(articles, a) && a.id == id && a.entityID == t.byID[id]
  }

  ghost predicate SlugsFrom(f: Letters, articles: seq<Article>, t: Tables) {
    forall k :: k in t.bySlug ==>
      k in t.seenSlugs && k == f.lower(t.bySlug[k]) && exists a :: Owner(articles, a) && a.slug.value == t.bySlug[k]
  }

  ghost predicate EntitiesFrom(f: Letters, articles: seq<Article>, t: Tables) {
    && Injective(t.byEntity)
    && forall e :: e in t.byEntity ==>
         && e != "" && f.lower(t.byEntity[e]) in t.seenSlugs
         && exists a :: Owner(articles, a) && a.entityID == e && a.slug.value == t.byEntity[e]
  }

  ghost predicate OrdinaryFrom(f: Letters, articles: seq<Article>, t: Tables) {
    forall k :: k in t.entitylessSlugs <==> exists a :: Ordinary(articles, a) && f.lower(a.slug.value) == k
  }

  /** Everything that the tables hold comes from an article, and every article is in them. */
  ghost predicate Reflects(f: Letters, articles: seq<Article>, t: Tables) {
    OwnersIn(f, articles, t) && IDsFrom(articles, t) && SlugsFrom(f, articles, t) && EntitiesFrom(f, articles, t)
    && OrdinaryFrom(f, articles, t)
  }

  lemma NamedSnoc(articles: seq<Article>, last: Article)
    ensures forall a :: Owner(articles + [last], a)
                        <==> Owner(articles, a) || (a == last && !last.root && last.slug.Some? && last.entityID != "")
    ensures forall a :: Ordinary(articles + [last], a)
                        <==> Ordinary(articles, a) || (a == last && !last.root && last.slug.Some? && last.entityID == "")
  {
  }

  lemma OwnersSnoc(f: Letters, articles: seq<Article>, t: Tables, last: Article)
    requires OwnersIn(f, articles, t) && SlugsFrom(f, articles, t) && EntitiesFrom(f, articles, t)
    requires ArticleFits(f, t, last)
    ensures OwnersIn(f, articles + [last], AddArticle(f, t, last))
  {
    hide Owner, Ordinary, ValidSourceID, ValidSyntoEntityID;
    NamedSnoc(articles, last);
  }

  lemma IDsSnoc(f: Letters, articles: seq<Article>, t: Tables, last: Article)
    requires IDsFrom(articles, t) && ArticleFits(f, t, last)
    ensures IDsFrom(articles + [last], AddArticle(f, t, last))
  {
    hide Owner, Ordinary, ValidSourceID, ValidSyntoEntityID;
    NamedSnoc(articles, last);
  }

  lemma SlugsSnoc(f: Letters, articles: seq<Article>, t: Tables, last: Article)
    requires SlugsFrom(f, articles, t) && ArticleFits(f, t, last)
    ensures SlugsFrom(f, articles + [last], AddArticle(f, t, last))
  {
    hide Owner, Ordinary, ValidSourceID, ValidSyntoEntityID;
    NamedSnoc(articles, last);
  }

  lemma EntitiesSnoc(f: Letters, articles: seq<Article>, t: Tables, last: Article)
    requires EntitiesFrom(f, articles, t) && ArticleFits(f, t, last)
    ensures EntitiesFrom(f, articles + [last], AddArticle(f, t, last))
  {
    hide Owner, Ordinary, ValidSourceID, ValidSyntoEntityID;
    NamedSnoc(articles, last);
  }

  lemma OrdinarySnoc(f: Letters, articles: seq<Article>, t: Tables, last: Article)
    requires OrdinaryFrom(f, articles, t) && ArticleFits(f, t, last)
    ensures OrdinaryFrom(f, articles + [last], AddArticle(f, t, last))
  {
    hide Owner, Ordinary, ValidSourceID, ValidSyntoEntityID;
    NamedSnoc(articles, last);
    if !last.root && last.entityID == "" {
      assert Ordinary(articles + [last], last);
    }
  }

  lemma ReflectsSnoc(f: Letters, articles: seq<Article>, t: Tables, last: Article)
    requires Reflects(f, articles, t) && ArticleFits(f, t, last)
    ensures Reflects(f, articles + [last], AddArticle(f, t, last))
  {
    hide OwnersIn, IDsFrom, SlugsFrom, EntitiesFrom, OrdinaryFrom, ArticleFits, AddArticle;
    OwnersSnoc(f, articles, t, last);
    IDsSnoc(f, articles, t, last);
    SlugsSnoc(f, articles, t, last);
    EntitiesSnoc(f, articles, t, last);
    OrdinarySnoc(f, articles, t, last);
  }

  lemma NothingReflects(f: Letters)
    ensures Reflects(f, [], NO_TABLES)
  {
  }

  lemma {:induction false} TablesReflect(f: Letters, articles: seq<Article>)
    requires Build(f, articles).Some?
    ensures Reflects(f, articles, Build(f, articles).value)
  {
    hide ArticleFits, AddArticle, Reflects;
    if articles == [] {
      NothingReflects(f);
    } else {
      var init, last := articles[..|articles| - 1], articles[|articles| - 1];
      TablesReflect(f, init);
      ReflectsSnoc(f, init, Build(f, init).value, last);
      assert articles == init + [last];
    }
  }

  // ---- One generated concept ----

  datatype Judgement = Skip | Bind(entity: string) | Refuse

  /** byEntityForSlug. */
  method EntityForSlug(byEntity: map<string, string>, slug: string) returns (entity: string)
    requires "" !in byEntity
    ensures entity in byEntity ==> byEntity[entity] == slug
    ensures entity !in byEntity ==> entity == "" && slug !in byEntity.Values
  {
    var todo := byEntity.Keys;
    while todo != {}
      invariant todo <= byEntity.Keys
      invariant forall e :: e in byEntity && e !in todo ==> byEntity[e] != slug
    {
      var e :| e in todo;
      if byEntity[e] == slug {
        return e;
      }
      todo := todo - {e};
    }
    entity := "";
  }

  /** The article that owns the entity has exactly the concept's slug, and no article of its ID has another entity. */
  ghost predicate Binds(articles: seq<Article>, current: string, slug: string, entity: string) {
    && (exists a :: Owner(articles, a) && a.slug.value == slug && a.entityID == entity)
    && (forall a :: Owner(articles, a) && a.id == current && a.id != "" ==> a.entityID == entity)
  }

  /** The concept is an ordinary article, which has no entity. */
  ghost predicate Unbound(f: Letters, articles: seq<Article>, slug: string) {
    exists a :: Ordinary(articles, a) && f.lower(a.slug.value) == f.lower(slug)
  }

  /** No ordinary article is in the way, and ID and path lead to the same entity. */
  predicate Bindable(f: Letters, t: Tables, current: string, slug: string) {
    && current !in t.entitylessIDs && f.lower(slug) !in t.entitylessSlugs
    && f.lower(slug) in t.bySlug && t.bySlug[f.lower(slug)] == slug
    && (current in t.byID ==> t.byID[current] in t.byEntity && t.byEntity[t.byID[current]] == slug)
  }

  /** Slug and ID are those of one ordinary article, or the ID is no article's at all. */
  predicate Skippable(f: Letters, t: Tables, current: string, slug: string) {
    && f.lower(slug) in t.entitylessSlugs
    && if current in t.entitylessIDs
       then t.entitylessSlugs[f.lower(slug)] == current && f.equalFold(t.entitylessIDs[current], slug)
       else current !in t.seenIDs
  }

  method Judge(f: Letters, articles: seq<Article>, t: Tables, current: string, slug: string) returns (r: Judgement)
    requires Build(f, articles) == Some(t)
    ensures r.Bind? ==> Binds(articles, current, slug, r.entity)
    ensures r.Skip? ==> Unbound(f, articles, slug)
    ensures r.Bind? <==> Bindable(f, t, current, slug)
    ensures r.Skip? <==> Skippable(f, t, current, slug)
    ensures r.Bind? ==> r.entity in t.byEntity && t.byEntity[r.entity] == slug
  {
    hide Build, ArticleFits, AddArticle, Owner, Ordinary;
    TablesReflect(f, articles);
    var key := f.lower(slug);
    if current in t.entitylessIDs || key in t.entitylessSlugs {
      if current in t.entitylessIDs {
        if key in t.entitylessSlugs && t.entitylessSlugs[key] == current && f.equalFold(t.entitylessIDs[current], slug) {
          return Skip;
        }
        return Refuse;
      }
      if current in t.seenIDs {
        return Refuse;
      }
      return Skip;
    }
    var pathEntity := "";
    if key in t.bySlug && t.bySlug[key] == slug {
      pathEntity := EntityForSlug(t.byEntity, slug);
    } else if key in t.bySlug {
      return Refuse;
    }
    if current in t.byID && key in t.bySlug && t.byID[current] != pathEntity {
      return Refuse;
    }
    if current in t.byID && key !in t.bySlug {
      return Refuse;
    }
    if key !in t.bySlug {
      return Refuse;
    }
    r := Bind(pathEntity);
  }

  // ---- The whole map ----

  predicate PriorDistinct(prior: seq<Row>) {
    forall i, j :: 0 <= i < j < |prior| ==>
      && prior[i].conceptID != prior[j].conceptID && prior[i].slug != prior[j].slug
      && (prior[i].entityID != "" ==> prior[i].entityID != prior[j].entityID)
  }

  predicate PriorRowOk(row: Row) {
    ValidSourceID(row.conceptID) && SafeConceptSlug(row.slug) && (row.entityID != "" ==> ValidSyntoEntityID(row.entityID))
  }

  method CheckPriorDistinct(prior: seq<Row>) returns (ok: bool)
    ensures ok <==> PriorDistinct(prior) && forall i :: 0 <= i < |prior| ==> PriorRowOk(prior[i])
  {
    hide PriorRowOk;
    var ids, slugs, entities: set<string> := {}, {}, {};
    for n := 0 to |prior|
      invariant PriorDistinct(prior[..n]) && forall i :: 0 <= i < n ==> PriorRowOk(prior[i])
      invariant forall x :: x in ids <==> exists i :: 0 <= i < n && prior[i].conceptID == x
      invariant forall x :: x in slugs <==> exists i :: 0 <= i < n && prior[i].slug == x
      invariant forall x :: x in entities <==> x != "" && exists i :: 0 <= i < n && prior[i].entityID == x
    {
      var row := prior[n];
      if !PriorRowOk(row) {
        return false;
      }
      if row.conceptID in ids || row.slug in slugs || (row.entityID != "" && row.entityID in entities) {
        return false;
      }
      ids, slugs := ids + {row.conceptID}, slugs + {row.slug};
      if row.entityID != "" {
        entities := entities + {row.entityID};
      }
    }
    ok := true;
  }

  predicate EdgeOk(edge: Edge) {
    edge.name != "" && ValidSyntoEntityID(edge.entityID)
  }

  method CheckEdges(edges: seq<Edge>) returns (ok: bool)
    ensures ok <==> forall i :: 0 <= i < |edges| ==> EdgeOk(edges[i])
  {
    for n := 0 to |edges|
      invariant forall i :: 0 <= i < n ==> EdgeOk(edges[i])
    {
      if !EdgeOk(edges[n]) {
        return false;
      }
    }
    ok := true;
  }

  /** When the mapping succeeds: everything is well formed, nothing disagrees, and no two concepts share a bound slug. */
  predicate Mappable(f: Letters, index: Index, concepts: map<string, string>, prior: seq<Row>) {
    && PriorDistinct(prior) && (forall i :: 0 <= i < |prior| ==> PriorRowOk(prior[i]))
    && (forall i :: 0 <= i < |index.edges| ==> EdgeOk(index.edges[i]))
    && Build(f, index.articles).Some?
    && var t := Build(f, index.articles).value;
       && index.activeEntities <= t.byEntity.Keys
       && Agreed(f, t, concepts)
  }

  predicate Agreed(f: Letters, t: Tables, concepts: map<string, string>) {
    && (forall c :: c in concepts ==> Bindable(f, t, c, concepts[c]) || Skippable(f, t, c, concepts[c]))
    && (forall c, d :: c in concepts && d in concepts && c != d && Bindable(f, t, c, concepts[c]) ==>
          Bindable(f, t, d, concepts[d]) ==> concepts[c] != concepts[d])
  }

  /**
   * The entities of the generated concepts, as INDEX.json has them. In what it returns no entity belongs to two
   * concepts, each belongs to the one whose slug its article has, and whoever is left out is an ordinary article.
   */
  method MapEntityIDs(f: Letters, index: Index, concepts: map<string, string>, prior: seq<Row>) returns (r: Option<map<string, string>>)
    ensures r.Some? <==> Mappable(f, index, concepts, prior)
    ensures r.Some? ==> Injective(r.value) && r.value.Keys <= concepts.Keys
    ensures r.Some? ==> forall c :: c in r.value ==> Binds(index.articles, c, concepts[c], r.value[c])
    ensures r.Some? ==> forall c :: c in concepts && c !in r.value ==> Unbound(f, index.articles, concepts[c])
    ensures r.Some? ==> forall e :: e in index.activeEntities ==> exists a :: Owner(index.articles, a) && a.entityID == e
  {
    hide Build, Binds, Unbound, PriorDistinct, PriorRowOk, EdgeOk, Agreed, Owner, Injective;
    var ok := CheckPriorDistinct(prior);
    if !ok {
      return None;
    }
    ok := CheckEdges(index.edges);
    if !ok {
      return None;
    }
    var tables := BuildTables(f, index.articles);
    if tables == None {
      return None;
    }
    var t := tables.value;
    if !(index.activeEntities <= t.byEntity.Keys) {
      return None;
    }
    EntitiesHaveOwners(f, index.articles, t);
    r := BindConcepts(f, index.articles, t, concepts);
  }

  lemma EntitiesHaveOwners(f: Letters, articles: seq<Article>, t: Tables)
    requires Build(f, articles) == Some(t)
    ensures forall e :: e in t.byEntity ==> exists a :: Owner(articles, a) && a.entityID == e
    ensures Injective(t.byEntity)
  {
    hide Build, Owner, Ordinary, OwnersIn, IDsFrom, SlugsFrom, OrdinaryFrom;
    TablesReflect(f, articles);
  }

  /** The loop over the generated concepts. */
  method BindConcepts(f: Letters, articles: seq<Article>, t: Tables, concepts: map<string, string>) returns (r: Option<map<string, string>>)
    requires Build(f, articles) == Some(t) && Injective(t.byEntity)
    ensures r.Some? <==> Agreed(f, t, concepts)
    ensures r.Some? ==> Injective(r.value) && r.value.Keys <= concepts.Keys
    ensures r.Some? ==> forall c :: c in r.value ==> Binds(articles, c, concepts[c], r.value[c])
    ensures r.Some? ==> forall c :: c in concepts && c !in r.value ==> Unbound(f, articles, concepts[c])
  {
    hide Build, Binds, Unbound, Bindable, Skippable;
    var out, used: map<string, string> := map[], map[];
    var todo := concepts.Keys;
    while todo != {}
      invariant todo <= concepts.Keys && out.Keys <= concepts.Keys - todo
      invariant forall c :: c in out ==> out[c] in used && used[out[c]] == c && Binds(articles, c, concepts[c], out[c])
      invariant forall c :: c in out ==>
        Bindable(f, t, c, concepts[c]) && out[c] in t.byEntity && t.byEntity[out[c]] == concepts[c]
      invariant forall c :: c in concepts && c !in todo && c !in out ==>
        Unbound(f, articles, concepts[c]) && Skippable(f, t, c, concepts[c]) && !Bindable(f, t, c, concepts[c])
      invariant forall e :: e in used ==> used[e] in out && out[used[e]] == e
    {
      var c :| c in todo;
      var j := Judge(f, articles, t, c, concepts[c]);
      if j == Refuse {
        return None;
      }
      if j.Bind? {
        if j.entity in used && used[j.entity] != c {
          return None;
        }
        used := used[j.entity := c];
        out := out[c := j.entity];
      }
      todo := todo - {c};
    }
    r := Some(out);
  }
}
