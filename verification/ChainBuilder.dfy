/** The search of create_certificate_chain: securepath/crypto/certificate_chain.cpp. */
module ChainBuilder {
  import opened Options
  import opened CertificateChain

  function Reverse(s: seq<Link>): (r: seq<Link>)
    ensures |r| == |s|
    ensures forall i :: 0 <= i < |s| ==> r[i] == s[|s| - 1 - i]
    decreases |s|
  {
    if s == [] then [] else Reverse(s[1..]) + [s[0]]
  }

  /** The chain of a list of links that runs from the subject up to a root. */
  function ChainOf(list: seq<Link>): Chain
    requires list != []
  {
    Chain(list[|list| - 1].cert.issuer, Reverse(list))
  }

  /** Is the certificate stored, and one that the key refers to? */
  predicate StoredFor(w: World, link: Link) {
    exists k :: 0 <= k < |link.subject.certIds| && Finds(w, link.subject.certIds[k], link.cert)
  }

  predicate Finds(w: World, id: CertificateId, cert: Certificate) {
    id in w.certs && w.certs[id] == cert
  }

  /** A way from a subject over stored certificates and keys to the first root issuer. */
  predicate StoredPath(w: World, subject: PublicKey, p: seq<Link>)
    decreases |p|
  {
    && p != [] && p[0].subject == subject && StoredFor(w, p[0])
    && var issuer := p[0].cert.issuer;
       if issuer in w.roots then |p| == 1
       else issuer in w.keys && StoredPath(w, w.keys[issuer], p[1..])
  }

  /** The level a list of links has reached: none, or that of its last one. */
  function LastLevel(list: seq<Link>): Option<Level> {
    if list == [] then None else Some(list[|list| - 1].cert.data.caLevel)
  }

  /** How far the levels can still rise. */
  function Headroom(last: Option<Level>): nat {
    match last
    case None => 0x1_0000
    case Some(l) => 0xFFFF - l
  }

  /** No way up from the subject makes an authentic chain with the links so far. */
  ghost predicate NoWayUp(w: World, subject: PublicKey, list: seq<Link>) {
    forall p: seq<Link> :: StoredPath(w, subject, p) ==> !Authentic(w, ChainOf(list + p))
  }

  /** The same for the ways that start with this certificate. */
  ghost predicate NoWayVia(w: World, subject: PublicKey, cert: Certificate, list: seq<Link>) {
    forall p: seq<Link> :: StoredPath(w, subject, p) && p[0].cert == cert ==> !Authentic(w, ChainOf(list + p))
  }

  /** Links found so far that can be part of a stored path from the subject `from`. */
  ghost predicate LeadsTo(w: World, from: PublicKey, list: seq<Link>, subject: PublicKey) {
    forall p: seq<Link> :: StoredPath(w, subject, p) ==> StoredPath(w, from, list + p)
  }

  /** The last link is stored, and the ones before it lead to its subject. */
  ghost predicate Via(w: World, from: PublicKey, list: seq<Link>) {
    && list != [] && StoredFor(w, list[|list| - 1])
    && LeadsTo(w, from, list[..|list| - 1], list[|list| - 1].subject)
  }

  /** What may be found: an authentic chain along a stored path from the subject. */
  ghost predicate Found(w: World, from: PublicKey, c: Chain) {
    Authentic(w, c) && exists p: seq<Link> :: StoredPath(w, from, p) && c == ChainOf(p)
  }

  /** A certificate issued by a root is where a path ends. */
  lemma OnlyWayVia(w: World, from: PublicKey, list: seq<Link>)
    requires Via(w, from, list) && list[|list| - 1].cert.issuer in w.roots
    ensures StoredPath(w, from, list)
    ensures !Authentic(w, ChainOf(list)) ==>
      NoWayVia(w, list[|list| - 1].subject, list[|list| - 1].cert, list[..|list| - 1])
  {
    hide Authentic, StoredFor;
    var front, last := list[..|list| - 1], list[|list| - 1];
    assert list == front + [last];
    assert StoredPath(w, last.subject, [last]);
    forall p: seq<Link> | StoredPath(w, last.subject, p) && p[0].cert == last.cert
      ensures ChainOf(front + p) == ChainOf(list)
    {
      assert p == [last];
    }
  }

  lemma StoredPathVia(w: World, link: Link, p: seq<Link>)
    requires StoredFor(w, link) && link.cert.issuer !in w.roots && link.cert.issuer in w.keys
    requires StoredPath(w, w.keys[link.cert.issuer], p)
    ensures StoredPath(w, link.subject, [link] + p)
  {
    hide StoredFor;
    assert ([link] + p)[1..] == p;
  }

  /** Through any other certificate paths go on from its issuer. */
  lemma LeadsOn(w: World, from: PublicKey, list: seq<Link>)
    requires Via(w, from, list)
    requires list[|list| - 1].cert.issuer !in w.roots && list[|list| - 1].cert.issuer in w.keys
    ensures LeadsTo(w, from, list, w.keys[list[|list| - 1].cert.issuer])
  {
    hide StoredFor, StoredPath;
    var front, last := list[..|list| - 1], list[|list| - 1];
    forall p: seq<Link> | StoredPath(w, w.keys[last.cert.issuer], p)
      ensures StoredPath(w, from, list + p)
    {
      StoredPathVia(w, last, p);
      assert front + ([last] + p) == list + p;
    }
  }

  lemma WaysViaGoOn(w: World, list: seq<Link>)
    requires list != [] && list[|list| - 1].cert.issuer !in w.roots && list[|list| - 1].cert.issuer in w.keys
    requires NoWayUp(w, w.keys[list[|list| - 1].cert.issuer], list)
    ensures NoWayVia(w, list[|list| - 1].subject, list[|list| - 1].cert, list[..|list| - 1])
  {
    hide Authentic, StoredFor;
    var front, last := list[..|list| - 1], list[|list| - 1];
    forall p: seq<Link> | StoredPath(w, last.subject, p) && p[0].cert == last.cert
      ensures !Authentic(w, ChainOf(front + p))
    {
      assert p[0] == last;
      assert front + p == list + p[1..];
    }
  }

  /** No path leads through a certificate whose issuer is unknown. */
  lemma UnknownIssuerIsNoWay(w: World, subject: PublicKey, cert: Certificate, list: seq<Link>)
    requires cert.issuer !in w.roots && cert.issuer !in w.keys
    ensures NoWayVia(w, subject, cert, list)
  {
    hide Authentic, StoredFor;
  }

  /** Only key certificates are in authentic chains. */
  lemma WrongTypeIsNoWay(w: World, subject: PublicKey, cert: Certificate, list: seq<Link>)
    requires cert.certType != KEY_CERTIFICATE
    ensures NoWayVia(w, subject, cert, list)
  {
    hide StoredPath, Authentic;
    forall p: seq<Link> | StoredPath(w, subject, p) && p != [] && p[0].cert == cert
      ensures !Authentic(w, ChainOf(list + p))
    {
      var c := ChainOf(list + p);
      var i := |p| - 1;
      assert c.links[i] == (list + p)[|list|] == p[0];
      if Authentic(w, c) {
        LinksAreKeyCertificates(w, c, i);
      }
    }
    PathsAreNotEmpty(w, subject);
  }

  lemma LinksAreKeyCertificates(w: World, c: Chain, i: nat)
    requires Authentic(w, c) && i < |c.links|
    ensures c.links[i].cert.certType == KEY_CERTIFICATE
  {
    assert LinkFine(w, w.roots[c.root], c.links, i);
  }

  lemma PathsAreNotEmpty(w: World, subject: PublicKey)
    ensures forall p: seq<Link> :: StoredPath(w, subject, p) ==> p != []
  {
  }

  /** Levels rise from the subject to the root, so a level that does not rise is no way. */
  lemma LowLevelIsNoWay(w: World, subject: PublicKey, cert: Certificate, list: seq<Link>)
    requires list != [] && list[|list| - 1].cert.data.caLevel >= cert.data.caLevel
    ensures NoWayVia(w, subject, cert, list)
  {
    hide StoredPath, Authentic;
    forall p: seq<Link> | StoredPath(w, subject, p) && p != [] && p[0].cert == cert
      ensures !Authentic(w, ChainOf(list + p))
    {
      var c := ChainOf(list + p);
      var i := |p| - 1;
      assert c.links[i] == (list + p)[|list|] == p[0];
      assert c.links[i + 1] == (list + p)[|list| - 1] == list[|list| - 1];
      if Authentic(w, c) {
        AuthenticChainShape(w, c, i, i + 1);
      }
    }
    PathsAreNotEmpty(w, subject);
  }

  /** If no certificate of the subject leads anywhere, no way does. */
  lemma NoCertificateNoWay(w: World, subject: PublicKey, list: seq<Link>)
    requires forall k, cert :: 0 <= k < |subject.certIds| && Finds(w, subject.certIds[k], cert) ==>
      NoWayVia(w, subject, cert, list)
    ensures NoWayUp(w, subject, list)
  {
    hide Authentic;
    forall p: seq<Link> | StoredPath(w, subject, p)
      ensures !Authentic(w, ChainOf(list + p))
    {
      var k :| 0 <= k < |subject.certIds| && Finds(w, subject.certIds[k], p[0].cert);
      assert NoWayVia(w, subject, p[0].cert, list);
    }
  }

  class ChainBuilder {
    const w: World
    var chain: Option<Chain>

    constructor (w: World)
      ensures this.w == w && chain == None
    {
      this.w := w;
      chain := None;
    }

    method TryComplete(cert: Certificate, list: seq<Link>)
      requires list != [] && list[|list| - 1].cert == cert && chain == None
      modifies this
      ensures chain == if Authentic(w, ChainOf(list)) then Some(ChainOf(list)) else None
    {
      var cc := new CertificateChain(Chain(cert.issuer, Reverse(list)));
      var authentic := cc.IsAuthentic(w);
      if authentic {
        chain := Some(ChainOf(list));
      }
    }

    /** `list` ends in a link with this certificate. */
    method FollowIssuer(ghost from: PublicKey, cert: Certificate, list: seq<Link>)
      requires list != [] && list[|list| - 1].cert == cert && chain == None
      requires Via(w, from, list)
      modifies this
      ensures chain.Some? ==> Found(w, from, chain.value)
      ensures chain.None? ==> NoWayVia(w, list[|list| - 1].subject, cert, list[..|list| - 1])
      decreases Headroom(Some(cert.data.caLevel)), 2, 0
    {
      hide StoredPath, StoredFor, Authentic, LeadsTo;
      if cert.issuer in w.roots {
        TryComplete(cert, list);
        OnlyWayVia(w, from, list);
      } else if cert.issuer in w.keys {
        LeadsOn(w, from, list);
        BuildList(from, w.keys[cert.issuer], Some(cert.data.caLevel), list);
        if chain.None? {
          WaysViaGoOn(w, list);
        }
      } else {
        UnknownIssuerIsNoWay(w, list[|list| - 1].subject, cert, list[..|list| - 1]);
      }
    }

    method Consider(ghost from: PublicKey, subject: PublicKey, cert: Certificate,
                    last: Option<Level>, list: seq<Link>)
      requires chain == None && last == LastLevel(list)
      requires StoredFor(w, Link(subject, cert)) && LeadsTo(w, from, list, subject)
      modifies this
      ensures chain.Some? ==> Found(w, from, chain.value)
      ensures chain.None? ==> NoWayVia(w, subject, cert, list)
      decreases Headroom(last), 0, 0
    {
      hide StoredPath, StoredFor, LeadsTo, NoWayVia, Found;
      if cert.certType != KEY_CERTIFICATE {
        WrongTypeIsNoWay(w, subject, cert, list);
      } else if last.None? || last.value < cert.data.caLevel {
        var copy := list + [Link(subject, cert)];
        assert copy[..|list|] == list;
        FollowIssuer(from, cert, copy);
      } else {
        LowLevelIsNoWay(w, subject, cert, list);
      }
    }

    method BuildList(ghost from: PublicKey, subject: PublicKey, last: Option<Level>, list: seq<Link>)
      requires chain == None && last == LastLevel(list) && LeadsTo(w, from, list, subject)
      modifies this
      ensures chain.Some? ==> Found(w, from, chain.value)
      ensures chain.None? ==> NoWayUp(w, subject, list)
      decreases Headroom(last), 1, 0
    {
      hide StoredPath, LeadsTo, NoWayVia, NoWayUp, Found;
      var i := 0;
      while chain.None? && i < |subject.certIds|
        invariant i <= |subject.certIds|
        invariant chain.Some? ==> Found(w, from, chain.value)
        invariant chain.None? ==> forall k, cert ::
          0 <= k < i && Finds(w, subject.certIds[k], cert) ==> NoWayVia(w, subject, cert, list)
        decreases |subject.certIds| - i
      {
        var id := subject.certIds[i];
        if id in w.certs {
          assert Finds(w, id, w.certs[id]);
          Consider(from, subject, w.certs[id], last, list);
        }
        i := i + 1;
      }
      if chain.None? {
        NoCertificateNoWay(w, subject, list);
      }
    }
  }

  /** The search finds a chain exactly if some path over stored certificates from the
      subject to the first root issuer makes an authentic chain, and then it finds one of
      those, ending in the subject. */
  method CreateCertificateChain(w: World, subject: PublicKey) returns (chain: Option<Chain>)
    ensures chain.Some? <==> exists p: seq<Link> :: StoredPath(w, subject, p) && Authentic(w, ChainOf(p))
    ensures chain.Some? ==> Found(w, subject, chain.value)
    ensures chain.Some? ==> chain.value.links[|chain.value.links| - 1].subject == subject
  {
    hide StoredPath, Authentic;
    assert LeadsTo(w, subject, [], subject) by {
      assert forall p: seq<Link> :: [] + p == p;
    }
    var builder := new ChainBuilder(w);
    builder.BuildList(subject, subject, None, []);
    chain := builder.chain;
    if chain.None? {
      assert forall p: seq<Link> :: [] + p == p;
    } else {
      FoundEndsInSubject(w, subject, chain.value);
    }
  }

  lemma FoundEndsInSubject(w: World, from: PublicKey, c: Chain)
    requires Found(w, from, c)
    ensures c.links != [] && c.links[|c.links| - 1].subject == from
  {
    hide Authentic;
    var p :| StoredPath(w, from, p) && c == ChainOf(p);
    assert c.links[|p| - 1] == p[0];
  }
}
