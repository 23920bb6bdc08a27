/** The g2error package: building a layered error from a native error code and
    its message (G2Error), and testing an error for membership in a category
    (Is, IsInList). */
module Classification {
  import opened Taxonomy

  /** An error value as the package sees it.
      - `Plain` is `errors.New(message)`, and stands for any error that is
        neither one of the package's wrapper structs nor has an `Unwrap` or
        `As` method;
      - `Classified` is one of the four base wrappers (`G2BadUserInputError`,
        `G2BaseError`, `G2RetryableError`, `G2UnrecoverableError`): it embeds
        the previous error and carries a list of ids;
      - `Detailed` is one of the twenty detail wrappers, which only embed;
      - `Wrapped` is an error from outside the package whose `Unwrap`
        returns `inner`, such as the result of `fmt.Errorf("...%w", inner)`;
        `text` is what its own `Error` method returns. */
  datatype Error =
    | Plain(msg: string)
    | Classified(category: BaseCategory, inner: Error, ids: seq<TypeId>)
    | Detailed(detail: DetailCategory, inner: Error)
    | Wrapped(text: string, inner: Error)

  /** `err.Error()`: every package wrapper embeds its inner error, whose
      `Error` method is promoted, so the text is the innermost one's. */
  function Message(e: Error): string {
    match e
    case Plain(m) => m
    case Classified(_, inner, _) => Message(inner)
    case Detailed(_, inner) => Message(inner)
    case Wrapped(text, _) => text
  }

  /** The package's wrapper kinds of `e`, innermost first; a foreign error
      ends the stack like a plain one. */
  function Layers(e: Error): seq<Layer> {
    match e
    case Plain(_) => []
    case Classified(c, inner, _) => Layers(inner) + [BaseLayer(c)]
    case Detailed(d, inner) => Layers(inner) + [DetailLayer(d)]
    case Wrapped(_, _) => []
  }

  /** The wrapper kinds one layer per id, in list order. */
  function LayersOf(ids: seq<TypeId>): (r: seq<Layer>)
    ensures |r| == |ids|
    ensures forall i :: 0 <= i < |ids| ==> r[i] == LayerOf(ids[i])
  {
    if |ids| == 0 then [] else LayersOf(ids[..|ids| - 1]) + [LayerOf(ids[|ids| - 1])]
  }

  /** Every base wrapper anywhere in `e` carries exactly `ids`. */
  predicate BaseLayersCarry(e: Error, ids: seq<TypeId>) {
    match e
    case Plain(_) => true
    case Classified(_, inner, attached) => attached == ids && BaseLayersCarry(inner, ids)
    case Detailed(_, inner) => BaseLayersCarry(inner, ids)
    case Wrapped(_, _) => true
  }

  /** The error `k` embedded levels below `e` (or the plain error at the
      bottom, if the chain is shorter). */
  function Peel(e: Error, k: nat): Error {
    if k == 0 || e.Plain? then e else Peel(e.inner, k - 1)
  }

  /** One pass of the switch in G2Error: wrap `acc` in the variant for `id`.
      Base wrappers, and the default branch, attach the whole list `ids`. */
  function Wrap(acc: Error, id: TypeId, ids: seq<TypeId>): (r: Error)
    ensures !r.Plain? && !r.Wrapped? && r.inner == acc
    ensures Message(r) == Message(acc)
    ensures Layers(r) == Layers(acc) + [LayerOf(id)]
    ensures r.Classified? <==> !id.Detail?
    ensures r.Classified? ==> r.ids == ids
  {
    match id
    case Category(b) => Classified(b, acc, ids)
    case Detail(d) => Detailed(d, acc)
    case Other(_) => Classified(General, acc, ids)
  }

  /** The accumulator after the loop of G2Error has handled the ids `prefix`
      of the code's list `ids`, starting from `errors.New(message)`. */
  function WrapAll(message: string, prefix: seq<TypeId>, ids: seq<TypeId>): (r: Error)
    ensures Message(r) == message
    ensures Layers(r) == LayersOf(prefix)
    ensures BaseLayersCarry(r, ids)
    ensures r.Plain? <==> |prefix| == 0
    ensures !r.Wrapped?
    ensures Peel(r, |prefix|) == Plain(message)
    ensures r.Classified? <==> EndsInBase(prefix)
    ensures r.Classified? ==> r.ids == ids
    decreases |prefix|
  {
    if |prefix| == 0 then Plain(message)
    else Wrap(WrapAll(message, prefix[..|prefix| - 1], ids), prefix[|prefix| - 1], ids)
  }

  /** G2Error(senzingErrorCode, message), with the package's code table as
      the parameter `table`. */
  function G2Error(table: Table, code: int, message: string): (r: Error)
    ensures Message(r) == message
    ensures code !in table ==> r == Plain(message)
    ensures code in table ==> Peel(r, |table[code]|) == Plain(message)
    ensures !r.Wrapped?
    ensures Layers(r) == LayersOf(CategoriesOf(table, code))
    ensures BaseLayersCarry(r, CategoriesOf(table, code))
    ensures r.Classified? <==> EndsInBase(CategoriesOf(table, code))
    ensures r.Classified? ==> r.ids == CategoriesOf(table, code)
  {
    if code in table then WrapAll(message, table[code], table[code]) else Plain(message)
  }

  /** G2Error as the source writes it: a loop over the code's ids that
      replaces the accumulator with a wrapper around it. */
  method BuildError(table: Table, code: int, message: string) returns (result: Error)
    ensures result == G2Error(table, code, message)
  {
    result := Plain(message);
    if code in table {
      var ids := table[code];
      var i := 0;
      while i < |ids|
        invariant 0 <= i <= |ids|
        invariant result == WrapAll(message, ids[..i], ids)
      {
        match ids[i] {
          case Category(b) =>
            result := Classified(b, result, ids);
          case Detail(d) =>
            result := Detailed(d, result);
          case Other(_) =>
            result := Classified(General, result, ids);
        }
        assert ids[..i + 1][..i] == ids[..i];
        i := i + 1;
      }
      assert ids[..|ids|] == ids;
    }
  }

  /** The inner range loop of Is: does `t` occur in `ids`? */
  function ScanIds(ids: seq<TypeId>, t: TypeId): (found: bool)
    ensures found <==> t in ids
  {
    if |ids| == 0 then false else ids[0] == t || ScanIds(ids[1..], t)
  }

  datatype Option<T> = None | Some(value: T)

  /** The result of a call that either returns a value or panics. */
  datatype Outcome = Returns(value: bool) | Panics

  /** `errors.As(err, &target)` for a target of the base wrapper type `c`:
      walk `err` and its `Unwrap` chain, and yield the attached ids of the
      first `c` wrapper met. The package's wrappers are assumed to define no
      `Unwrap`, so the walk stops at them; only foreign errors are stepped through. */
  function Found(e: Error, c: BaseCategory): Option<seq<TypeId>> {
    match e
    case Classified(c', _, ids) => if c' == c then Some(ids) else None
    case Wrapped(_, inner) => Found(inner, c)
    case _ => None
  }

  /** The base wrapper that the walk from `e` down foreign `Unwrap` chains
      stops at, if any; `errors.As` succeeds exactly for its category. */
  function BaseBelow(e: Error): (r: Option<Error>)
    ensures r.Some? ==> r.value.Classified?
    ensures forall c :: Found(e, c) == (if r.Some? && r.value.category == c then Some(r.value.ids) else None)
  {
    match e
    case Classified(_, _, _) => Some(e)
    case Wrapped(_, inner) => BaseBelow(inner)
    case _ => None
  }

  /** One of the four blocks of Is, followed by the `rest` of the function:
      `errors.As(err, &X{})`, then the single-value type assertion
      `err.(X)` on `err` itself, which panics when `err` is not an `X`,
      then a scan of its ids that returns true on a match. */
  function Block(e: Error, c: BaseCategory, t: TypeId, rest: Outcome): Outcome {
    match Found(e, c)
    case None => rest
    case Some(_) =>
      if e.Classified? && e.category == c then
        (if ScanIds(e.ids, t) then Returns(true) else rest)
      else Panics
  }

  /** Is(err, errorType): the four base wrapper types are tried in turn.
      It returns true exactly when `err` itself is a base wrapper listing
      `t`, and panics exactly when `err` is a foreign error whose `Unwrap`
      chain reaches a base wrapper. */
  function Is(e: Error, t: TypeId): (r: Outcome)
    ensures r == Returns(true) <==> e.Classified? && t in e.ids
    ensures r == Panics <==> e.Wrapped? && BaseBelow(e).Some?
  {
    Block(e, BadUserInput, t,
      Block(e, General, t,
        Block(e, Retryable, t,
          Block(e, Unrecoverable, t, Returns(false)))))
  }

  /** IsInList(err, errorType): Is for each id of `ts` in turn, stopping at
      the first match (or at the first panic). */
  function IsInList(e: Error, ts: seq<TypeId>): (r: Outcome)
    ensures r == Returns(true) <==> exists i :: 0 <= i < |ts| && Is(e, ts[i]) == Returns(true)
    ensures r == Panics <==> |ts| > 0 && e.Wrapped? && BaseBelow(e).Some?
  {
    if |ts| == 0 then Returns(false)
    else
      match Is(e, ts[0])
      case Returns(true) => Returns(true)
      case Returns(false) => IsInList(e, ts[1..])
      case Panics => Panics
  }

  /** One block of Is written as `errors.As` is meant to be used: the
      wrapper found by the walk is the one whose ids are scanned. */
  function CorrectedBlock(e: Error, c: BaseCategory, t: TypeId, rest: Outcome): Outcome {
    match Found(e, c)
    case None => rest
    case Some(ids) => if ScanIds(ids, t) then Returns(true) else rest
  }

  /** Is with the assertion on `err` replaced by the `errors.As` target: it
      never panics, and answers for the base wrapper the walk reaches. */
  function IsCorrected(e: Error, t: TypeId): (r: Outcome)
    ensures r == Returns(BaseBelow(e).Some? && t in BaseBelow(e).value.ids)
  {
    CorrectedBlock(e, BadUserInput, t,
      CorrectedBlock(e, General, t,
        CorrectedBlock(e, Retryable, t,
          CorrectedBlock(e, Unrecoverable, t, Returns(false)))))
  }

  /** G2ErrorMessage: a placeholder that ignores its input. */
  function G2ErrorMessage(senzingErrorMessage: string): (r: string)
    ensures |r| == 0
  {
    ""
  }

  /** G2ErrorCode: a placeholder that ignores its input. */
  function G2ErrorCode(senzingErrorMessage: string): (r: int)
    ensures r == 0
  {
    0
  }

  // Properties of the built error.

  /** An unknown code yields the plain error: no category is reported. */
  lemma UnknownCodeIsNeverClassified(table: Table, code: int, message: string, t: TypeId)
    requires code !in table
    ensures G2Error(table, code, message) == Plain(message)
    ensures Is(G2Error(table, code, message), t) == Returns(false)
  {
  }

  /** When the code's last id yields a base wrapper (a base id, or one the
      switch does not name), Is is exactly membership in the code's list. */
  lemma IsIsMembershipWhenLastIsBase(table: Table, code: int, message: string, t: TypeId)
    requires code in table && EndsInBase(table[code])
    ensures Is(G2Error(table, code, message), t) == Returns(t in table[code])
  {
  }

  /** When the code's list is empty or ends in a detail id, the outermost
      layer is not a base wrapper and Is reports no category at all, even
      those the inner base wrappers carry. */
  lemma IsIsFalseWhenLastIsNotBase(table: Table, code: int, message: string, t: TypeId)
    requires code in table && !EndsInBase(table[code])
    ensures Is(G2Error(table, code, message), t) == Returns(false)
    ensures |table[code]| > 0 ==> Is(G2Error(table, code, message), table[code][0]) == Returns(false)
  {
  }

  /** The built error holds every intermediate accumulator of the loop:
      peeling `k` layers gives the error built from all but the last `k`
      ids. In particular the innermost error is `errors.New(message)`. */
  lemma {:induction false} PeelWrapAll(message: string, prefix: seq<TypeId>, ids: seq<TypeId>, k: nat)
    requires k <= |prefix|
    ensures Peel(WrapAll(message, prefix, ids), k) == WrapAll(message, prefix[..|prefix| - k], ids)
    decreases k
  {
    if k > 0 {
      var n := |prefix|;
      PeelWrapAll(message, prefix[..n - 1], ids, k - 1);
      assert prefix[..n - 1][..n - 1 - (k - 1)] == prefix[..n - k];
    } else {
      assert prefix[..|prefix|] == prefix;
    }
  }

  /** Peeling as many layers as the code has ids reaches `errors.New(message)`,
      and every shallower peel is a wrapper. */
  lemma InnermostIsMessage(table: Table, code: int, message: string, k: nat)
    requires code in table && k <= |table[code]|
    ensures Peel(G2Error(table, code, message), |table[code]|) == Plain(message)
    ensures k < |table[code]| ==> !Peel(G2Error(table, code, message), k).Plain?
  {
    var ids := table[code];
    PeelWrapAll(message, ids, ids, |ids|);
    PeelWrapAll(message, ids, ids, k);
  }

  // Properties of IsInList.

  /** IsInList over `a + b` is IsInList over `a`, continued over `b` only
      when `a` returned false. */
  lemma {:induction false} IsInListConcat(e: Error, a: seq<TypeId>, b: seq<TypeId>)
    ensures IsInList(e, a + b)
            == if IsInList(e, a) == Returns(false) then IsInList(e, b) else IsInList(e, a)
    decreases |a|
  {
    if |a| == 0 {
      assert a + b == b;
    } else {
      assert (a + b)[0] == a[0];
      assert (a + b)[1..] == a[1..] + b;
      IsInListConcat(e, a[1..], b);
    }
  }

  /** On a built error, IsInList never panics, and returns true exactly when
      the outermost layer is a base wrapper and some queried id is among
      the code's ids. */
  lemma IsInListOfBuilt(table: Table, code: int, message: string, ts: seq<TypeId>)
    ensures IsInList(G2Error(table, code, message), ts)
            == Returns(EndsInBase(CategoriesOf(table, code))
                       && exists i :: 0 <= i < |ts| && ts[i] in CategoriesOf(table, code))
  {
    var r := G2Error(table, code, message);
    if IsInList(r, ts) == Returns(true) {
      var i :| 0 <= i < |ts| && Is(r, ts[i]) == Returns(true);
      assert ts[i] in CategoriesOf(table, code);
    }
    if EndsInBase(CategoriesOf(table, code)) && exists i :: 0 <= i < |ts| && ts[i] in CategoriesOf(table, code) {
      var i :| 0 <= i < |ts| && ts[i] in CategoriesOf(table, code);
      assert Is(r, ts[i]) == Returns(true);
    }
  }

  // Errors from outside the package.

  /** A foreign error whose `Unwrap` returns a built error makes Is panic
      exactly when the built error's outermost layer is a base wrapper: the
      walk of `errors.As` reaches it, and the type assertion on the foreign
      value fails. */
  lemma IsPanicsOnForeignWrapOfBuilt(table: Table, code: int, message: string, text: string, t: TypeId)
    ensures Is(Wrapped(text, G2Error(table, code, message)), t) == Panics
            <==> EndsInBase(CategoriesOf(table, code))
  {
    var r := G2Error(table, code, message);
    assert BaseBelow(Wrapped(text, r)) == BaseBelow(r);
    assert BaseBelow(r).Some? <==> r.Classified?;
  }

  /** A concrete instance: a retryable code wrapped once with `%w`. */
  lemma IsPanicsExample()
    ensures var tb := map[1 := [Category(Retryable)]];
            Is(Wrapped("ctx: boom", G2Error(tb, 1, "boom")), Category(Retryable)) == Panics
  {
  }

  /** The corrected Is agrees with Is on every error that is not a foreign
      wrapper, so every property above about built errors holds of it. */
  lemma IsCorrectedAgrees(e: Error, t: TypeId)
    requires !e.Wrapped?
    ensures IsCorrected(e, t) == Is(e, t)
  {
  }

  /** The corrected Is sees through foreign wrappers: wrapping a built error
      with `%w` changes nothing, and nothing panics. */
  lemma IsCorrectedThroughForeignWrap(table: Table, code: int, message: string, text: string, t: TypeId)
    ensures IsCorrected(Wrapped(text, G2Error(table, code, message)), t)
            == IsCorrected(G2Error(table, code, message), t)
    ensures IsCorrected(Wrapped(text, G2Error(table, code, message)), t)
            == Returns(EndsInBase(CategoriesOf(table, code)) && t in CategoriesOf(table, code))
  {
  }

  /** Feeding the placeholder parsers into G2Error: whatever the exception
      text, the result is the error for code 0 with an empty message. */
  lemma StubParsersIgnoreInput(table: Table, s: string, s': string)
    ensures G2Error(table, G2ErrorCode(s), G2ErrorMessage(s)) == G2Error(table, G2ErrorCode(s'), G2ErrorMessage(s'))
    ensures Message(G2Error(table, G2ErrorCode(s), G2ErrorMessage(s))) == ""
    ensures 0 !in table ==> G2Error(table, G2ErrorCode(s), G2ErrorMessage(s)) == Plain("")
  {
  }
}
