/** Concrete uses of G2Error and Is over small example tables. */
module Scenarios {
  import opened Taxonomy
  import opened Classification

  /** A code listed only under the general category is general and nothing
      else, and its message is kept. */
  lemma GeneralOnlyCode()
    ensures var e := G2Error(map[4001 := [Category(General)]], 4001, "boom");
            && Is(e, Category(General)) == Returns(true)
            && Is(e, Category(Retryable)) == Returns(false)
            && Message(e) == "boom"
  {
  }

  /** An unlisted code reports no category and keeps its message. */
  lemma UnlistedCode(t: TypeId)
    ensures var e := G2Error(map[4001 := [Category(General)]], 999999, "custom");
            && Is(e, t) == Returns(false)
            && Message(e) == "custom"
  {
  }

  /** A code listed as retryable and then as a database error: the detail
      wrapper ends up outermost, so Is reports neither category although the
      retryable wrapper inside carries both. */
  lemma DetailLastHidesCategories()
    ensures var ids := [Category(Retryable), Detail(Database)];
            var e := G2Error(map[7 := ids], 7, "lost");
            && e == Detailed(Database, Classified(Retryable, Plain("lost"), ids))
            && Is(e, Category(Retryable)) == Returns(false)
            && Is(e, Detail(Database)) == Returns(false)
  {
  }

  /** A repeated id is wrapped twice, and an id the switch does not name is
      wrapped as a base error carrying the whole list. */
  lemma RepeatedAndUnnamedIds()
    ensures var ids := [Detail(NotFound), Detail(NotFound), Other(42)];
            var e := G2Error(map[5 := ids], 5, "x");
            && e == Classified(General, Detailed(NotFound, Detailed(NotFound, Plain("x"))), ids)
            && Is(e, Detail(NotFound)) == Returns(true)
            && Is(e, Other(42)) == Returns(true)
            && Is(e, Category(General)) == Returns(false)
  {
    var ids := [Detail(NotFound), Detail(NotFound), Other(42)];
    assert ids[..2][..1] == [Detail(NotFound)];
    assert WrapAll("x", ids[..2], ids) == Detailed(NotFound, Detailed(NotFound, Plain("x")));
  }

  /** IsInList on an error that is neither a package wrapper nor has an
      `Unwrap` or `As` method: false for every list. */
  lemma ForeignErrorMatchesNothing(msg: string, ts: seq<TypeId>)
    ensures IsInList(Plain(msg), ts) == Returns(false)
  {
  }

  /** A base wrapper built by the caller rather than by G2Error is
      classified by the ids the caller attached. */
  lemma CallerBuiltWrapper()
    ensures var e := Classified(Retryable, Plain("x"), [Category(Retryable)]);
            && Is(e, Category(Retryable)) == Returns(true)
            && Is(e, Category(General)) == Returns(false)
  {
  }

  /** A foreign `%w` wrapper around an error with no base wrapper at the end
      of its chain makes Is return false, without panicking. */
  lemma ForeignWrapOfDetailIsFalse(t: TypeId)
    ensures Is(Wrapped("ctx: x", Detailed(NotFound, Plain("x"))), t) == Returns(false)
  {
  }
}
