/** The read-side rules of the simulation service: how a `List` filter is
    turned into a `LIKE` pattern, which rows a caller may see, which rows
    `List` selects, and when `GetCurrent` hides the running simulation. */
module Queries {
  import opened Options
  import opened Models

  /** `s` with every occurrence of `c` deleted (C#'s `s.Replace(c, "")`). */
  function RemoveChar(s: string, c: char): (r: string)
    ensures c !in r
    ensures forall x :: x in r ==> x in s
    ensures |r| <= |s|
    ensures forall x :: x != c ==> multiset(r)[x] == multiset(s)[x]
  {
    if s == [] then []
    else
      assert s == [s[0]] + s[1..];
      (if s[0] == c then [] else [s[0]]) + RemoveChar(s[1..], c)
  }

  /** `LIKE`'s two wildcard characters. */
  predicate IsWildcard(c: char) {
    c == '%' || c == '_'
  }

  /** Reference definition: the characters of `s` that are not wildcards,
      in their original order. */
  function Literal(s: string): string {
    if s == [] then [] else (if IsWildcard(s[0]) then [] else [s[0]]) + Literal(s[1..])
  }

  /** The pattern `List` matches names against for a non-empty filter:
      `%` + the filter with `%` and then `_` removed + `%`. */
  function SanitizeFilter(filter: string): (pattern: string)
    ensures |pattern| == |RemoveChar(RemoveChar(filter, '%'), '_')| + 2
    ensures pattern[0] == '%' && pattern[|pattern| - 1] == '%'
    ensures forall k :: 0 < k < |pattern| - 1 ==> !IsWildcard(pattern[k])
    ensures forall x :: !IsWildcard(x) ==>
              multiset(pattern[1..|pattern| - 1])[x] == multiset(filter)[x]
  {
    var inner := RemoveChar(RemoveChar(filter, '%'), '_');
    var pattern := "%" + inner + "%";
    assert pattern[1..|pattern| - 1] == inner;
    pattern
  }

  /** Removing a character distributes over concatenation, so the characters
      that remain keep their order. */
  lemma {:induction false} RemoveCharConcat(a: string, b: string, c: char)
    ensures RemoveChar(a + b, c) == RemoveChar(a, c) + RemoveChar(b, c)
  {
    if a == [] {
      assert a + b == b;
    } else {
      assert (a + b)[1..] == a[1..] + b;
      RemoveCharConcat(a[1..], b, c);
    }
  }

  /** Stripping `%` and then `_` keeps exactly the literal characters of the
      filter, in order. */
  lemma {:induction false} RemoveWildcardsIsLiteral(s: string)
    ensures RemoveChar(RemoveChar(s, '%'), '_') == Literal(s)
  {
    if s != [] {
      RemoveWildcardsIsLiteral(s[1..]);
      var head := if s[0] == '%' then [] else [s[0]];
      assert RemoveChar(s, '%') == head + RemoveChar(s[1..], '%');
      RemoveCharConcat(head, RemoveChar(s[1..], '%'), '_');
    }
  }

  /** The sanitised pattern is the literal part of the filter between two
      `%`, and a filter that holds no wildcard is used as it is. */
  lemma SanitizedPattern(filter: string)
    ensures SanitizeFilter(filter) == "%" + Literal(filter) + "%"
    ensures (forall k :: 0 <= k < |filter| ==> !IsWildcard(filter[k])) ==>
              SanitizeFilter(filter) == "%" + filter + "%"
  {
    RemoveWildcardsIsLiteral(filter);
    if forall k :: 0 <= k < |filter| ==> !IsWildcard(filter[k]) {
      LiteralOfLiteral(filter);
    }
  }

  lemma {:induction false} LiteralOfLiteral(s: string)
    requires forall k :: 0 <= k < |s| ==> !IsWildcard(s[k])
    ensures Literal(s) == s
  {
    if s != [] {
      LiteralOfLiteral(s[1..]);
    }
  }

  /** Sanitising is stable: the literal part of an already sanitised
      filter's interior is that interior itself. */
  lemma SanitizeIdempotent(filter: string)
    ensures var p := SanitizeFilter(filter);
            SanitizeFilter(p[1..|p| - 1]) == p
  {
    var p := SanitizeFilter(filter);
    var inner := p[1..|p| - 1];
    assert forall k :: 0 <= k < |inner| ==> !IsWildcard(inner[k]) by {
      forall k | 0 <= k < |inner| ensures !IsWildcard(inner[k]) {
        assert inner[k] == p[k + 1];
      }
    }
    SanitizedPattern(inner);
  }

  /** C#'s `string.IsNullOrEmpty`. */
  predicate IsNullOrEmpty(s: Option<string>) {
    s.None? || s.value == []
  }

  /** SQL equality of two nullable values: a comparison with NULL is never
      true. */
  predicate SqlEquals(a: Option<string>, b: Option<string>) {
    a.Some? && b.Some? && a.value == b.value
  }

  /** The ownership condition `owner = @caller OR owner IS NULL`. A caller
      sees the rows it owns and the ownerless rows, and nothing else; a
      caller without identity sees only the ownerless rows. */
  predicate Visible(row: Simulation, caller: Option<string>): (visible: bool)
    ensures visible <==> row.owner.None? || row.owner == caller
    ensures caller.None? ==> (visible <==> row.owner.None?)
  {
    SqlEquals(row.owner, caller) || row.owner.None?
  }

  /** The `WHERE` clause of `List`: with a non-empty filter only the name
      pattern applies (checked by the store's `LIKE`, given as `like`); with
      an empty or null filter only the ownership condition applies. */
  predicate ListWhere(row: Simulation, filter: Option<string>, caller: Option<string>,
                      like: (string, string) -> bool)
  {
    if !IsNullOrEmpty(filter) then like(row.name, SanitizeFilter(filter.value))
    else Visible(row, caller)
  }

  /** With a non-empty filter the caller's identity is not consulted; without
      one, exactly the visible rows are selected. */
  lemma ListWhereOwnerRule(row: Simulation, filter: Option<string>,
                           caller: Option<string>, other: Option<string>,
                           like: (string, string) -> bool)
    ensures !IsNullOrEmpty(filter) ==>
              ListWhere(row, filter, caller, like) == ListWhere(row, filter, other, like)
    ensures IsNullOrEmpty(filter) ==>
              (ListWhere(row, filter, caller, like) <==> Visible(row, caller))
  {
  }

  /** The running simulation as `GetCurrent` reports it to `caller`: null
      when nothing runs, and null when it belongs to someone else. */
  function GetCurrent(caller: Option<string>, current: Option<Simulation>): (r: Option<Simulation>)
    ensures r.None? || r == current
    ensures r.Some? ==> current.value.owner.None? || current.value.owner == caller
  {
    if current.None? then None
    else if current.value.owner.Some? && current.value.owner != caller then None
    else current
  }

  /** `GetCurrent` hides the running simulation by the same rule the store
      applies to rows: it is shown exactly when `Visible` holds. */
  lemma GetCurrentAgreesWithVisible(caller: Option<string>, current: Option<Simulation>)
    ensures GetCurrent(caller, current) ==
              if current.Some? && Visible(current.value, caller) then current else None
  {
  }
}
