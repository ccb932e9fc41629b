/**
 * Hash-chained ledgers: every link stores its predecessor's digest and the digest of its own
 * content. Shared by the paper audit chain and the membership audit log.
 *
 * The digest function is a parameter. Nothing here assumes that it has no collisions (no
 * function from all texts to 64 hex digits does): results that depend on that exhibit the
 * colliding links instead.
 */
module HashChain {

  datatype Link<P> = Link(body: P, previous: string, digest: string)

  function Zeros(n: nat): (s: string)
    ensures |s| == n && IsZero(s)
  {
    if n == 0 then "" else Zeros(n - 1) + "0"
  }

  const GENESIS := Zeros(64)

  predicate IsHexDigit(c: char) {
    '0' <= c <= '9' || 'a' <= c <= 'f' || 'A' <= c <= 'F'
  }

  /** 64 hex digits. */
  predicate IsHex64(s: string) {
    |s| == 64 && forall i :: 0 <= i < |s| ==> IsHexDigit(s[i])
  }

  predicate IsZero(s: string) {
    forall i :: 0 <= i < |s| ==> s[i] == '0'
  }

  /** 64 hex digits with a positive value. */
  predicate IsHash(s: string) {
    IsHex64(s) && !IsZero(s)
  }

  /** SHA-256 in hexadecimal, which is 64 digits and, in practice, never all zeros. */
  ghost predicate IsDigestFunction<P(!new)>(h: (P, string) -> string) {
    forall body, previous :: IsHash(h(body, previous))
  }

  function Head<P>(chain: seq<Link<P>>): string {
    if chain == [] then GENESIS else chain[|chain| - 1].digest
  }

  ghost predicate LinkOk<P>(h: (P, string) -> string, chain: seq<Link<P>>, i: nat)
    requires i < |chain|
  {
    && chain[i].previous == Head(chain[..i])
    && chain[i].digest == h(chain[i].body, chain[i].previous)
  }

  ghost predicate Linked<P>(h: (P, string) -> string, chain: seq<Link<P>>) {
    forall i :: 0 <= i < |chain| ==> LinkOk(h, chain, i)
  }

  /** Two links with different content and one digest. */
  predicate Collide<P(==)>(a: Link<P>, b: Link<P>) {
    (a.body != b.body || a.previous != b.previous) && a.digest == b.digest
  }

  ghost predicate HasCollision<P>(xs: seq<Link<P>>, ys: seq<Link<P>>) {
    exists a, b :: a in xs && b in ys && Collide(a, b)
  }

  lemma LinkedPrefix<P>(h: (P, string) -> string, chain: seq<Link<P>>, n: nat)
    requires Linked(h, chain) && n <= |chain|
    ensures Linked(h, chain[..n])
  {
    forall i | 0 <= i < n ensures LinkOk(h, chain[..n], i) {
      assert chain[..n][..i] == chain[..i];
      assert LinkOk(h, chain, i);
    }
  }

  lemma LinkedExtend<P>(h: (P, string) -> string, chain: seq<Link<P>>, link: Link<P>)
    requires Linked(h, chain)
    requires link.previous == Head(chain) && link.digest == h(link.body, link.previous)
    ensures Linked(h, chain + [link])
  {
    var all := chain + [link];
    forall i | 0 <= i < |all| ensures LinkOk(h, all, i) {
      assert all[..i] == chain[..i];
      if i < |chain| {
        assert LinkOk(h, chain, i);
      } else {
        assert chain[..i] == chain;
      }
    }
  }

  /** The head digest determines the whole history, unless the histories exhibit a collision. */
  lemma {:induction false} HeadDeterminesChain<P(!new)>(h: (P, string) -> string, xs: seq<Link<P>>, ys: seq<Link<P>>)
    requires IsDigestFunction(h) && Linked(h, xs) && Linked(h, ys) && Head(xs) == Head(ys)
    ensures xs == ys || HasCollision(xs, ys)
  {
    if xs == [] || ys == [] {
      NonEmptyHead(h, xs);
      NonEmptyHead(h, ys);
    } else {
      var x, y := xs[|xs| - 1], ys[|ys| - 1];
      if !Collide(x, y) {
        var xs', ys' := xs[..|xs| - 1], ys[..|ys| - 1];
        assert LinkOk(h, xs, |xs| - 1) && LinkOk(h, ys, |ys| - 1);
        LinkedPrefix(h, xs, |xs| - 1);
        LinkedPrefix(h, ys, |ys| - 1);
        HeadDeterminesChain(h, xs', ys');
        if xs' != ys' {
          var a, b :| a in xs' && b in ys' && Collide(a, b);
          assert a in xs && b in ys;
        } else {
          assert xs == xs' + [x] && ys == ys' + [y];
        }
      }
    }
  }

  lemma NonEmptyHead<P(!new)>(h: (P, string) -> string, chain: seq<Link<P>>)
    requires IsDigestFunction(h) && Linked(h, chain)
    ensures Head(chain) == GENESIS <==> chain == []
  {
    if chain != [] {
      assert LinkOk(h, chain, |chain| - 1);
    }
  }

  // ---------------------------------------------------------------- what verification detects

  function Removed<P>(chain: seq<Link<P>>, i: nat): seq<Link<P>>
    requires i < |chain|
  {
    chain[..i] + chain[i + 1..]
  }

  /**
   * Deleting one link from an intact chain goes unnoticed when it is the last one; anywhere
   * else the chain no longer verifies, or it holds a collision.
   */
  lemma RemovalDetectedBeforeTheEnd<P(!new)>(h: (P, string) -> string, chain: seq<Link<P>>, i: nat)
    requires IsDigestFunction(h) && Linked(h, chain) && i < |chain|
    ensures i == |chain| - 1 ==> Linked(h, Removed(chain, i))
    ensures i < |chain| - 1 && Linked(h, Removed(chain, i)) ==> HasCollision(chain, chain)
  {
    if i == |chain| - 1 {
      LinkedPrefix(h, chain, i);
      assert Removed(chain, i) == chain[..i];
    } else if Linked(h, Removed(chain, i)) {
      assert LinkOk(h, Removed(chain, i), i) && Removed(chain, i)[..i] == chain[..i];
      assert Removed(chain, i)[i] == chain[i + 1];
      assert LinkOk(h, chain, i + 1);
      LinkedPrefix(h, chain, i);
      LinkedPrefix(h, chain, i + 1);
      HeadDeterminesChain(h, chain[..i], chain[..i + 1]);
      var a, b :| a in chain[..i] && b in chain[..i + 1] && Collide(a, b);
      assert a in chain && b in chain;
    }
  }

  /**
   * Rewriting one link goes unnoticed exactly when the new link fits its place: for the last
   * link that takes only a recomputed digest, anywhere else it takes a collision.
   */
  lemma RewriteDetectedBeforeTheEnd<P(!new)>(h: (P, string) -> string, chain: seq<Link<P>>, i: nat, link: Link<P>)
    requires Linked(h, chain) && i < |chain| && link != chain[i]
    ensures i == |chain| - 1 ==>
      (Linked(h, chain[i := link])
       <==> link.previous == chain[i].previous && link.digest == h(link.body, link.previous))
    ensures i < |chain| - 1 && Linked(h, chain[i := link]) ==> Collide(chain[i], link)
  {
    var changed := chain[i := link];
    assert changed[..i] == chain[..i];
    assert LinkOk(h, chain, i);
    if i == |chain| - 1 {
      LinkedPrefix(h, chain, i);
      if link.previous == chain[i].previous && link.digest == h(link.body, link.previous) {
        LinkedExtend(h, chain[..i], link);
        assert changed == chain[..i] + [link];
      }
      assert Linked(h, changed) ==> LinkOk(h, changed, i);
    } else if Linked(h, changed) {
      assert LinkOk(h, changed, i) && LinkOk(h, changed, i + 1) && LinkOk(h, chain, i + 1);
    }
  }

  /** The link holds its place's digest and its own. */
  predicate Fits<P(==)>(h: (P, string) -> string, chain: seq<Link<P>>, i: nat, link: Link<P>)
    requires i < |chain|
  {
    link.previous == chain[i].previous && link.digest == h(link.body, link.previous)
  }

  /** A rewritten link goes unnoticed exactly when it fits and either nothing follows or its digest is the old one. */
  lemma RewriteUnnoticedExactlyWhen<P(!new)>(h: (P, string) -> string, chain: seq<Link<P>>, i: nat, link: Link<P>)
    requires Linked(h, chain) && i < |chain|
    ensures Linked(h, chain[i := link])
            <==> Fits(h, chain, i, link) && (i == |chain| - 1 || link.digest == chain[i].digest)
  {
    var changed := chain[i := link];
    assert changed[..i] == chain[..i];
    assert LinkOk(h, chain, i);
    if Linked(h, changed) {
      assert LinkOk(h, changed, i);
      if i < |chain| - 1 {
        assert LinkOk(h, changed, i + 1) && LinkOk(h, chain, i + 1);
      }
    }
    if Fits(h, chain, i, link) && (i == |chain| - 1 || link.digest == chain[i].digest) {
      forall k | 0 <= k < |chain|
        ensures LinkOk(h, changed, k)
      {
        assert LinkOk(h, chain, k);
        SameHeadBefore(chain, i, link, k);
      }
    }
  }

  lemma SameHeadBefore<P>(chain: seq<Link<P>>, i: nat, link: Link<P>, k: nat)
    requires i < |chain| && k < |chain| && (k <= i || link.digest == chain[i].digest)
    ensures Head(chain[i := link][..k]) == Head(chain[..k])
  {
  }
}
