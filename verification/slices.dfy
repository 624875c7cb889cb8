/** Taking a part of a list, as far as there is one. */
module Slices {

  function First<T>(xs: seq<T>, limit: nat): (r: seq<T>)
    ensures |r| <= limit && r <= xs
  {
    if |xs| <= limit then xs else xs[..limit]
  }

  function Window<T>(xs: seq<T>, offset: nat, limit: nat): (r: seq<T>)
    ensures |r| <= limit
  {
    if offset >= |xs| then [] else if offset + limit < |xs| then xs[offset..offset + limit] else xs[offset..]
  }
}
