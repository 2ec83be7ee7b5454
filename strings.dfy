/** String helpers shared by the renderers: JavaScript's `Array.prototype.join`. */
module Strings {

  /** `parts.join(sep)`: the parts in order, with `sep` between neighbours; `""` for no parts. */
  function Join(parts: seq<string>, sep: string): string
  {
    if |parts| == 0 then ""
    else if |parts| == 1 then parts[0]
    else Join(parts[..|parts| - 1], sep) + sep + parts[|parts| - 1]
  }

  /** Joining two non-empty lists is joining each and putting one separator between them. */
  lemma {:induction false} JoinConcat(a: seq<string>, b: seq<string>, sep: string)
    requires a != [] && b != []
    ensures Join(a + b, sep) == Join(a, sep) + sep + Join(b, sep)
    decreases |b|
  {
    var ab := a + b;
    assert ab[..|ab| - 1] == a + b[..|b| - 1];
    if |b| == 1 {
      assert b[..|b| - 1] == [];
      assert ab[..|ab| - 1] == a;
    } else {
      JoinConcat(a, b[..|b| - 1], sep);
    }
  }

  /** Appending one part appends the separator and that part. */
  lemma JoinSnoc(parts: seq<string>, p: string, sep: string)
    requires parts != []
    ensures Join(parts + [p], sep) == Join(parts, sep) + sep + p
  {
    JoinConcat(parts, [p], sep);
  }
}
