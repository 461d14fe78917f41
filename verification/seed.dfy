/** The four sample rows the application seeds its table with
    (src/data/db.py), and what the queries answer on them. */
module Seed {
  import opened Wrappers
  import opened Dates
  import opened Text
  import opened Models
  import opened Repository

  /** The first seed title, "The Legend of Zelda: Breath of the Wild",
      written around the word the title search looks for. */
  const ZeldaTitle := "The Legend of " + "Zelda" + ": Breath of the Wild"
  const Zelda := Videojuego(Some(1), ZeldaTitle, "Nintendo", Some(Date(2017, 3, 3)), false)
  const Minecraft := Videojuego(Some(2), "Minecraft", "Mojang Studios", Some(Date(2011, 11, 18)), true)
  const AmongUs := Videojuego(Some(3), "Among Us", "InnerSloth", Some(Date(2018, 6, 15)), true)
  const Witcher := Videojuego(Some(4), "The Witcher 3: Wild Hunt", "CD Projekt Red", Some(Date(2015, 5, 19)), false)

  /** A table of four rows under keys 1 to 4, in insertion order. */
  function FourRows(a: Videojuego, b: Videojuego, c: Videojuego, d: Videojuego): Store {
    map[1 := a, 2 := b, 3 := c, 4 := d]
  }

  predicate Numbered(a: Videojuego, b: Videojuego, c: Videojuego, d: Videojuego) {
    a.id == Some(1) && b.id == Some(2) && c.id == Some(3) && d.id == Some(4)
  }

  /** The table right after seeding. */
  const SeedStore: Store := FourRows(Zelda, Minecraft, AmongUs, Witcher)

  lemma FourValues(a: Videojuego, b: Videojuego, c: Videojuego, d: Videojuego, v: Videojuego)
    ensures v in FourRows(a, b, c, d).Values <==> v == a || v == b || v == c || v == d
  {
    var st := FourRows(a, b, c, d);
    if v == a { assert st[1] == v; }
    if v == b { assert st[2] == v; }
    if v == c { assert st[3] == v; }
    if v == d { assert st[4] == v; }
  }

  lemma FourValid(a: Videojuego, b: Videojuego, c: Videojuego, d: Videojuego)
    requires Numbered(a, b, c, d)
    ensures Valid(FourRows(a, b, c, d))
  {
  }

  /** A query over four rows holds exactly the ones satisfying its condition. */
  lemma FourSelectMembers(a: Videojuego, b: Videojuego, c: Videojuego, d: Videojuego, cond: Condition, v: Videojuego)
    ensures v in Select(FourRows(a, b, c, d), cond) <==> (v == a || v == b || v == c || v == d) && Holds(cond, v)
  {
    FourValues(a, b, c, d, v);
  }

  /** A query over four numbered rows answers exactly the id-ordered list
      of those that satisfy its condition. */
  lemma FourSelect(a: Videojuego, b: Videojuego, c: Videojuego, d: Videojuego, cond: Condition, expected: seq<Videojuego>)
    requires Numbered(a, b, c, d) && IdOrdered(expected)
    requires (a in expected <==> Holds(cond, a)) && (b in expected <==> Holds(cond, b))
    requires (c in expected <==> Holds(cond, c)) && (d in expected <==> Holds(cond, d))
    requires forall v :: v in expected ==> v == a || v == b || v == c || v == d
    ensures Select(FourRows(a, b, c, d), cond) == expected
  {
    FourValid(a, b, c, d);
    var r := Select(FourRows(a, b, c, d), cond);
    forall v ensures v in r <==> v in expected {
      FourSelectMembers(a, b, c, d, cond, v);
    }
    IdOrderedUnique(r, expected);
  }

  /** The title search over four numbered rows of which only the first
      matches. */
  lemma FourTitleSearchFirst(a: Videojuego, b: Videojuego, c: Videojuego, d: Videojuego, p: string)
    requires Numbered(a, b, c, d)
    requires ILikeContains(a.titulo, p) && !ILikeContains(b.titulo, p)
    requires !ILikeContains(c.titulo, p) && !ILikeContains(d.titulo, p)
    ensures GetByTitulo(FourRows(a, b, c, d), p) == [a]
  {
    FourSelect(a, b, c, d, TituloILike(p), [a]);
  }

  /** Selecting by flag over four numbered rows. */
  lemma FourByFlag(a: Videojuego, b: Videojuego, c: Videojuego, d: Videojuego, flag: bool, expected: seq<Videojuego>)
    requires Numbered(a, b, c, d)
    requires !a.esMultijugador && b.esMultijugador && c.esMultijugador && !d.esMultijugador
    requires expected == if flag then [b, c] else [a, d]
    ensures Select(FourRows(a, b, c, d), EsMultijugadorIs(flag)) == expected
  {
    FourSelect(a, b, c, d, EsMultijugadorIs(flag), expected);
  }

  lemma FourOrdered(a: Videojuego, b: Videojuego, c: Videojuego, d: Videojuego)
    requires Numbered(a, b, c, d)
    ensures IdOrdered([a, b, c, d])
  {
    var r := [a, b, c, d];
    assert r[0].id.value == 1 && r[1].id.value == 2 && r[2].id.value == 3 && r[3].id.value == 4;
  }

  /** The empty title pattern selects all four numbered rows. */
  lemma FourMatchEmptyTitle(a: Videojuego, b: Videojuego, c: Videojuego, d: Videojuego)
    requires Numbered(a, b, c, d)
    ensures Select(FourRows(a, b, c, d), TituloILike("")) == [a, b, c, d]
  {
    FourOrdered(a, b, c, d);
    EmptyPatternMatchesAll(a.titulo);
    EmptyPatternMatchesAll(b.titulo);
    EmptyPatternMatchesAll(c.titulo);
    EmptyPatternMatchesAll(d.titulo);
    FourSelect(a, b, c, d, TituloILike(""), [a, b, c, d]);
  }

  /** Listing four numbered rows gives them in key order. */
  lemma FourListing(a: Videojuego, b: Videojuego, c: Videojuego, d: Videojuego)
    requires Numbered(a, b, c, d)
    ensures GetAll(FourRows(a, b, c, d)) == [a, b, c, d]
  {
    var rows := GetAll(FourRows(a, b, c, d));
    forall v | v in rows ensures Holds(TituloILike(""), v) {
      EmptyPatternMatchesAll(v.titulo);
    }
    WhereKeepsAll(rows, TituloILike(""));
    FourMatchEmptyTitle(a, b, c, d);
  }

  /** Listing the seeded table gives the four sample rows in order. */
  lemma SeedListing()
    ensures GetAll(SeedStore) == [Zelda, Minecraft, AmongUs, Witcher]
  {
    FourListing(Zelda, Minecraft, AmongUs, Witcher);
  }

  /** The intended inclusive range 2015-01-01..2016-01-01 keeps only the
      2015 row and drops the 2011, 2017 and 2018 ones. */
  lemma SeedIntendedRange()
    ensures GetByIntervaloFechaIntended(SeedStore, Date(2015, 1, 1), Date(2016, 1, 1)) == [Witcher]
  {
    FourSelect(Zelda, Minecraft, AmongUs, Witcher, FechaBetween(Date(2015, 1, 1), Date(2016, 1, 1)), [Witcher]);
  }

  /** The range query as written answers the same bounds with an error. */
  lemma SeedRangeAsWrittenFails()
    ensures GetByIntervaloFecha(SeedStore, Date(2015, 1, 1), Date(2016, 1, 1)).Failure?
    ensures GetByIntervaloFechaIntended(SeedStore, Date(2015, 1, 1), Date(2016, 1, 1)) != []
  {
    SeedIntendedRange();
  }

  /** Asked for single-player games, the multiplayer query as written
      returns the two multiplayer ones. */
  lemma SeedMultijugadorAsWritten()
    ensures GetMultijugador(SeedStore, false) == [Minecraft, AmongUs]
  {
    FourByFlag(Zelda, Minecraft, AmongUs, Witcher, true, [Minecraft, AmongUs]);
  }

  /** The intended query returns the two single-player ones. */
  lemma SeedMultijugadorIntended()
    ensures GetByMultijugadorFlag(SeedStore, false) == [Zelda, Witcher]
  {
    FourByFlag(Zelda, Minecraft, AmongUs, Witcher, false, [Zelda, Witcher]);
  }

  /** "zelda" finds the Zelda title whatever its letter case. */
  lemma ZeldaMatches()
    ensures ILikeContains(Zelda.titulo, "zelda")
  {
    ILikeInside("The Legend of ", "Zelda", ": Breath of the Wild", "zelda");
  }

  /** A title without the letter z in either case does not match "zelda". */
  lemma NoZ(title: string)
    requires forall k :: 0 <= k < |title| ==> title[k] != 'z' && title[k] != 'Z'
    ensures !ILikeContains(title, "zelda")
  {
    var h := Lower(title);
    var n := Lower("zelda");
    assert n == "zelda";
    assert forall i :: 0 <= i < |h| ==> h[i] != 'z';
    assert forall i :: OccursAt(h, n, i) ==> h[i] == h[i..i + |n|][0];
    ContainsMeansOccurs(h, n);
  }

  lemma MinecraftDoesNotMatchZelda()
    ensures !ILikeContains(Minecraft.titulo, "zelda")
  {
    NoZ(Minecraft.titulo);
  }

  lemma AmongUsDoesNotMatchZelda()
    ensures !ILikeContains(AmongUs.titulo, "zelda")
  {
    NoZ(AmongUs.titulo);
  }

  lemma WitcherDoesNotMatchZelda()
    ensures !ILikeContains(Witcher.titulo, "zelda")
  {
    NoZ(Witcher.titulo);
  }

  /** Searching the seeded table for "zelda" finds exactly the Zelda row. */
  lemma SeedTitleSearch()
    ensures GetByTitulo(SeedStore, "zelda") == [Zelda]
  {
    ZeldaMatches();
    MinecraftDoesNotMatchZelda();
    AmongUsDoesNotMatchZelda();
    WitcherDoesNotMatchZelda();
    FourTitleSearchFirst(Zelda, Minecraft, AmongUs, Witcher, "zelda");
  }
}
