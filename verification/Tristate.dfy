/** The three logic values n, m and y, represented as 0, 1 and 2. */
module Tristate {
  type Tri = t: int | 0 <= t <= 2

  function Min(a: Tri, b: Tri): Tri {
    if a <= b then a else b
  }

  function Max(a: Tri, b: Tri): Tri {
    if a <= b then b else a
  }

  /** TRI_TO_STR. */
  function TriToStr(t: Tri): string {
    if t == 0 then "n" else if t == 1 then "m" else "y"
  }

  const NMY: set<string> := {"n", "m", "y"}

  /** STR_TO_TRI, for the three names it is defined on. */
  function StrToTri(s: string): Tri
    requires s in NMY
  {
    if s == "n" then 0 else if s == "m" then 1 else 2
  }
}
