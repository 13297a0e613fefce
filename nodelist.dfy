/** NodeList in bmo.go: the value of the repeatable -node flag, a list of
    RethinkDB addresses that the flag package extends one occurrence at a
    time and prints joined by commas. */
module Nodes {

  datatype Option<T> = None | Some(value: T)

  /** What String puts between two addresses. */
  const Separator: string := ", "

  /** The entries of xs in order, with sep between each neighbouring pair and
      nowhere else. */
  function Join(xs: seq<string>, sep: string): string
  {
    if xs == [] then ""
    else if |xs| == 1 then xs[0]
    else xs[0] + sep + Join(xs[1..], sep)
  }

  /** Joining one more entry: it follows the earlier text after one
      separator, or stands alone when it is the only entry. */
  lemma {:induction false} JoinSnoc(xs: seq<string>, x: string, sep: string)
    ensures Join(xs + [x], sep) == if xs == [] then x else Join(xs, sep) + sep + x
    decreases |xs|
  {
    if |xs| >= 2 {
      assert (xs + [x])[1..] == xs[1..] + [x];
      JoinSnoc(xs[1..], x, sep);
    } else if |xs| == 1 {
      assert (xs + [x])[1..] == [x];
    }
  }

  /** The length of the joined text: every entry, plus one separator between
      each neighbouring pair. */
  lemma {:induction false} JoinLength(xs: seq<string>, sep: string)
    ensures |Join(xs, sep)| == Total(xs) + (if xs == [] then 0 else (|xs| - 1) * |sep|)
    decreases |xs|
  {
    if |xs| >= 2 {
      JoinLength(xs[1..], sep);
    }
  }

  /** The summed length of the entries. */
  function Total(xs: seq<string>): nat
  {
    if xs == [] then 0 else |xs[0]| + Total(xs[1..])
  }

  class NodeList {
    var list: seq<string>

    /** The zero value of the flag: no address yet. */
    constructor ()
      ensures list == []
    {
      list := [];
    }

    /** The flag's printed value: the addresses joined by Separator, so a
        single address prints as itself and the text is as long as the
        addresses plus one separator between each neighbouring pair. */
    function String(): (s: string)
      reads this
      ensures |list| == 1 ==> s == list[0]
      ensures |s| == Total(list) + (if list == [] then 0 else (|list| - 1) * |Separator|)
    {
      JoinLength(list, Separator);
      Join(list, Separator)
    }

    /** One occurrence of -node: the address goes at the end, the earlier
        ones stay as they were, no error is reported, and the printed value
        grows by a separator and the new address. */
    method Set(node: string) returns (err: Option<string>)
      modifies this
      ensures list == old(list) + [node]
      ensures err == None
      ensures String() == if old(list) == [] then node else old(String()) + Separator + node
    {
      JoinSnoc(list, node, Separator);
      list := list + [node];
      err := None;
    }
  }
}
