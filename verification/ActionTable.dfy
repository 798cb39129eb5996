/**
 How service and middleware names are laid out in the byte registry and the metadata words
 of a route tree, and that what is written can be read back.
 */
module ActionTable {
  import opened Common

  type Name = seq<byte>

  const LENGTH_CHUNK := 255

  /** The interpolation operations found in a name; the regular expression that finds them
      is not part of this model. */
  type Analyzer = Name -> seq<uint32>

  /** A length, in bytes of at most 255; the last byte is below 255. */
  function LengthBytes(n: nat): (bs: seq<byte>)
    ensures bs != []
  {
    if n < LENGTH_CHUNK then [n] else [LENGTH_CHUNK] + LengthBytes(n - LENGTH_CHUNK)
  }

  function EncodeName(name: Name): seq<byte> {
    LengthBytes(|name|) + name
  }

  lemma {:induction false} LengthBytesShort(n: nat)
    ensures |LengthBytes(n)| <= n + 1
  {
    if n >= LENGTH_CHUNK {
      LengthBytesShort(n - LENGTH_CHUNK);
    }
  }

  /** The room a name takes at most, in either table. */
  function NameCost(name: Name, analyze: Analyzer): nat {
    2 * |name| + 2 + |analyze(name)|
  }

  /** The room a list of names takes at most, with one word for each id. */
  function NamesCost(names: seq<Name>, analyze: Analyzer): nat {
    if names == [] then 0
    else NamesCost(names[..|names| - 1], analyze) + NameCost(names[|names| - 1], analyze) + 1
  }

  lemma NamesCostStart(names: seq<Name>, analyze: Analyzer)
    ensures NamesCost(names[..0], analyze) == 0 && NamesCost(names[..|names|], analyze) == NamesCost(names, analyze)
  {
    assert names[..|names|] == names;
  }

  lemma NamesCostStep(names: seq<Name>, i: nat, analyze: Analyzer)
    requires i < |names|
    ensures NamesCost(names[..i + 1], analyze) == NamesCost(names[..i], analyze) + NameCost(names[i], analyze) + 1
  {
    assert names[..i + 1][..i] == names[..i];
  }

  lemma NameFits(name: Name, analyze: Analyzer)
    ensures |EncodeName(name)| <= NameCost(name, analyze) && 2 + |analyze(name)| <= NameCost(name, analyze)
  {
    LengthBytesShort(|name|);
  }

  /** Name `name` is stored at `index` of the registry. */
  ghost predicate NameAt(registry: seq<byte>, index: int, name: Name) {
    0 <= index < |registry| && EncodeName(name) <= registry[index..]
  }

  /** An action record: where its name is stored, how many operations it has, and those. */
  ghost predicate ActionAt(registry: seq<byte>, metadata: seq<uint32>, id: int, name: Name, ops: seq<uint32>) {
    && 0 <= id && id + 2 + |ops| <= |metadata|
    && NameAt(registry, metadata[id], name)
    && metadata[id + 1] == |ops|
    && metadata[id + 2..id + 2 + |ops|] == ops
  }

  /** A route record: the service's action, the number of middlewares and their actions. */
  ghost predicate RouteAt(registry: seq<byte>, metadata: seq<uint32>, index: int, analyze: Analyzer,
                          service: Name, middlewares: seq<Name>) {
    && 0 <= index && index + 2 + |middlewares| <= |metadata|
    && ActionAt(registry, metadata, metadata[index], service, analyze(service))
    && metadata[index + 1] == |middlewares|
    && forall k :: 0 <= k < |middlewares| ==>
         ActionAt(registry, metadata, metadata[index + 2 + k], middlewares[k], analyze(middlewares[k]))
  }

  /** Every known name has its record. */
  ghost predicate MapOk(registry: seq<byte>, metadata: seq<uint32>, ids: map<Name, uint32>, analyze: Analyzer) {
    forall name :: name in ids ==> ActionAt(registry, metadata, ids[name], name, analyze(name))
  }

  // ---------------------------------------------------------------- appending

  lemma NameStays(r: seq<byte>, r': seq<byte>, index: int, name: Name)
    requires r <= r' && NameAt(r, index, name)
    ensures NameAt(r', index, name)
  {
    assert r'[index..][..|r| - index] == r[index..];
  }

  lemma ActionStays(r: seq<byte>, m: seq<uint32>, r': seq<byte>, m': seq<uint32>, id: int, name: Name, ops: seq<uint32>)
    requires r <= r' && m <= m' && ActionAt(r, m, id, name, ops)
    ensures ActionAt(r', m', id, name, ops)
  {
    NameStays(r, r', m[id], name);
    assert m'[id + 2..id + 2 + |ops|] == m[id + 2..id + 2 + |ops|];
  }

  /** Later appends never disturb earlier records. */
  lemma RouteStays(r: seq<byte>, m: seq<uint32>, r': seq<byte>, m': seq<uint32>, index: int, analyze: Analyzer,
                   service: Name, middlewares: seq<Name>)
    requires r <= r' && m <= m' && RouteAt(r, m, index, analyze, service, middlewares)
    ensures RouteAt(r', m', index, analyze, service, middlewares)
  {
    ActionStays(r, m, r', m', m[index], service, analyze(service));
    forall k | 0 <= k < |middlewares|
      ensures ActionAt(r', m', m'[index + 2 + k], middlewares[k], analyze(middlewares[k]))
    {
      ActionStays(r, m, r', m', m[index + 2 + k], middlewares[k], analyze(middlewares[k]));
    }
  }

  lemma MapStays(r: seq<byte>, m: seq<uint32>, r': seq<byte>, m': seq<uint32>, ids: map<Name, uint32>,
                 analyze: Analyzer)
    requires r <= r' && m <= m' && MapOk(r, m, ids, analyze)
    ensures MapOk(r', m', ids, analyze)
  {
    forall name | name in ids ensures ActionAt(r', m', ids[name], name, analyze(name)) {
      ActionStays(r, m, r', m', ids[name], name, analyze(name));
    }
  }

  lemma MapEntered(r: seq<byte>, m: seq<uint32>, ids: map<Name, uint32>, analyze: Analyzer, name: Name, id: uint32)
    requires MapOk(r, m, ids, analyze) && ActionAt(r, m, id, name, analyze(name))
    ensures MapOk(r, m, ids[name := id], analyze)
  {
  }

  lemma MapGives(r: seq<byte>, m: seq<uint32>, ids: map<Name, uint32>, analyze: Analyzer, name: Name)
    requires MapOk(r, m, ids, analyze) && name in ids
    ensures ActionAt(r, m, ids[name], name, analyze(name))
  {
  }

  lemma ActionAppended(r: seq<byte>, m: seq<uint32>, name: Name, ops: seq<uint32>)
    requires |r| < 0x1_0000_0000 && |ops| < 0x1_0000_0000
    ensures ActionAt(r + EncodeName(name), m + [|r|, |ops|] + ops, |m|, name, ops)
  {
    var r', m' := r + EncodeName(name), m + [|r|, |ops|] + ops;
    assert r'[|r|..] == EncodeName(name);
    assert m'[|m| + 2..|m| + 2 + |ops|] == ops;
  }

  lemma RouteAppended(r: seq<byte>, m: seq<uint32>, analyze: Analyzer, service: Name, middlewares: seq<Name>,
                      svcID: uint32, mwIDs: seq<uint32>)
    requires |mwIDs| == |middlewares| < 0x1_0000_0000
    requires ActionAt(r, m, svcID, service, analyze(service))
    requires forall k :: 0 <= k < |mwIDs| ==> ActionAt(r, m, mwIDs[k], middlewares[k], analyze(middlewares[k]))
    ensures RouteAt(r, m + ([svcID, |mwIDs|] + mwIDs), |m|, analyze, service, middlewares)
  {
    hide ActionAt;
    var m' := m + ([svcID, |mwIDs|] + mwIDs);
    ActionStays(r, m, r, m', svcID, service, analyze(service));
    forall k | 0 <= k < |middlewares|
      ensures ActionAt(r, m', m'[|m| + 2 + k], middlewares[k], analyze(middlewares[k]))
    {
      assert m'[|m| + 2 + k] == mwIDs[k];
      ActionStays(r, m, r, m', mwIDs[k], middlewares[k], analyze(middlewares[k]));
    }
  }

  /** One byte more of a length. */
  lemma LengthStep(n: nat, before: seq<byte>)
    ensures before + LengthBytes(n)
         == if n < LENGTH_CHUNK then before + [n] else before + [LENGTH_CHUNK] + LengthBytes(n - LENGTH_CHUNK)
  {
  }

  // ---------------------------------------------------------------- reading back

  /** The length spelled at `i`, and where the name starts. */
  lemma {:induction false} LengthPrefix(n: nat, rest: seq<byte>)
    ensures var bs := LengthBytes(n) + rest;
            bs[0] == if n < LENGTH_CHUNK then n else LENGTH_CHUNK
    ensures n >= LENGTH_CHUNK ==> (LengthBytes(n) + rest)[1..] == LengthBytes(n - LENGTH_CHUNK) + rest
    ensures n < LENGTH_CHUNK ==> (LengthBytes(n) + rest)[1..] == rest
  {
  }

  /** Reading one byte of a length off a text that starts with it. */
  lemma LengthRead(n: nat, rest: seq<byte>, text: seq<byte>)
    requires LengthBytes(n) + rest <= text
    ensures text != [] && text[0] == if n < LENGTH_CHUNK then n else LENGTH_CHUNK
    ensures if n < LENGTH_CHUNK then rest <= text[1..]
            else LengthBytes(n - LENGTH_CHUNK) + rest <= text[1..] && |text| > 1
  {
    hide LengthBytes;
    LengthPrefix(n, rest);
    assert (LengthBytes(n) + rest)[0] == text[0];
    assert (LengthBytes(n) + rest)[1..] <= text[1..];
  }

  /** Encoded names determine the name: no two names share their bytes at one place. */
  lemma {:induction false} EncodeInjective(a: Name, b: Name, resta: seq<byte>, restb: seq<byte>)
    requires EncodeName(a) + resta == EncodeName(b) + restb
    ensures a == b
  {
    assert EncodeName(a) + resta == LengthBytes(|a|) + (a + resta);
    assert EncodeName(b) + restb == LengthBytes(|b|) + (b + restb);
    LengthsAgree(|a|, |b|, a + resta, b + restb);
    assert a == (a + resta)[..|a|] && b == (b + restb)[..|b|];
  }

  lemma {:induction false} LengthsAgree(n: nat, m: nat, s: seq<byte>, t: seq<byte>)
    requires LengthBytes(n) + s == LengthBytes(m) + t
    ensures n == m && s == t
    decreases n
  {
    LengthPrefix(n, s);
    LengthPrefix(m, t);
    if n >= LENGTH_CHUNK && m >= LENGTH_CHUNK {
      LengthsAgree(n - LENGTH_CHUNK, m - LENGTH_CHUNK, s, t);
    }
  }

  lemma NamesUnique(registry: seq<byte>, index: int, a: Name, b: Name)
    requires NameAt(registry, index, a) && NameAt(registry, index, b)
    ensures a == b
  {
    var rest := registry[index..];
    assert EncodeName(a) + rest[|EncodeName(a)|..] == rest == EncodeName(b) + rest[|EncodeName(b)|..];
    EncodeInjective(a, b, rest[|EncodeName(a)|..], rest[|EncodeName(b)|..]);
  }
}
