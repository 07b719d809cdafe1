/**
 * Joining message fragments with a separator, the pattern shared by the
 * world's wall messages (each fragment after the first is preceded by ", ")
 * and by the interpreter's help text.
 */
module Text {

  /** The fragments of `parts`, in order, with `sep` between neighbours. */
  function Join(parts: seq<string>, sep: string): string
  {
    if |parts| == 0 then ""
    else if |parts| == 1 then parts[0]
    else Join(parts[..|parts| - 1], sep) + sep + parts[|parts| - 1]
  }

  /** Appending one more fragment to a joined text. */
  lemma JoinSnoc(parts: seq<string>, s: string, sep: string)
    ensures Join(parts + [s], sep) == if parts == [] then s else Join(parts, sep) + sep + s
  {
  }

  /** A join of non-empty fragments is empty exactly when there are no fragments. */
  lemma {:induction false} JoinEmpty(parts: seq<string>, sep: string)
    requires forall k :: 0 <= k < |parts| ==> parts[k] != ""
    ensures Join(parts, sep) == "" <==> parts == []
  {
  }
}
