/** The product record as both passes of the tool see it.

    A listing response decodes into full product records, but the loops only
    ever read three fields: the product's identifier, its title, and the
    identifier of its primary image. A product without a primary image
    decodes with the zero image identifier, as the Go decoder leaves the
    nested record at its zero value. Identifiers are only compared for
    equality, never combined arithmetically, so the 64-bit width of Go's
    `int` plays no part and `int` stands for it. */
module Catalog {

  datatype Product = Product(id: int, title: string, imageId: int)

  /** One page of the listing, in the order the API returned it. */
  type Page = seq<Product>

  /** Identifier of the last product of a non-empty page. */
  function LastId(page: Page): int
    requires page != []
  {
    page[|page| - 1].id
  }
}

/** Substring search, the one string operation the merge pass uses. */
module Text {

  /** `sub` occurs in `s` starting at position `i`. */
  predicate OccursAt(s: string, sub: string, i: int)
  {
    0 <= i <= |s| - |sub| && s[i..i + |sub|] == sub
  }

  /** Does `sub` occur in `s` as a contiguous run? Go's `strings.Contains`
      compares bytes; the family marker is plain ASCII, and an ASCII byte
      run inside UTF-8 text can only match whole ASCII characters, so a
      character-level search answers the same. */
  function Contains(s: string, sub: string): bool
    decreases |s|
  {
    if |s| < |sub| then false
    else if s[..|sub|] == sub then true
    else Contains(s[1..], sub)
  }

  /** The search finds `sub` exactly when it occurs somewhere in `s`. */
  lemma {:induction false} ContainsIffOccurs(s: string, sub: string)
    ensures Contains(s, sub) <==> exists i :: OccursAt(s, sub, i)
    decreases |s|
  {
    if |s| < |sub| {
    } else if s[..|sub|] == sub {
      assert OccursAt(s, sub, 0);
    } else {
      ContainsIffOccurs(s[1..], sub);
      if Contains(s[1..], sub) {
        var i :| OccursAt(s[1..], sub, i);
        assert s[i + 1..i + 1 + |sub|] == s[1..][i..i + |sub|];
        assert OccursAt(s, sub, i + 1);
      }
      if exists i :: OccursAt(s, sub, i) {
        var i :| OccursAt(s, sub, i);
        assert i != 0;
        assert s[1..][i - 1..i - 1 + |sub|] == s[i..i + |sub|];
        assert OccursAt(s[1..], sub, i - 1);
      }
    }
  }
}
