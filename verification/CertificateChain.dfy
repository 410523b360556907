/** Chains of key certificates: securepath/crypto/certificate_chain.cpp. Signatures are
    uninterpreted: the functions of a World say which ones verify. */
module CertificateChain {
  import opened Octets
  import opened Options
  import opened KeyRestriction

  type KeyId = seq<octet>

  type CertificateId = seq<octet>

  const MAX_CHAIN_LENGTH := 16
  const KEY_CERTIFICATE := 1
  const MAX_LEVEL := 0x7FFF_FFFF // std::numeric_limits<int>::max()

  type Level = n: nat | n < 0x1_0000

  /** certIds lists the referenced certificates in the order of the source's std::set. */
  datatype PublicKey = PublicKey(id: KeyId, certIds: seq<CertificateId>, material: seq<octet>)

  datatype KeyData = KeyData(subject: KeyId, caLevel: Level, restriction: Restriction)

  datatype Revocation = Revocation(target: CertificateId, signature: seq<octet>)

  datatype Certificate = Certificate(
    id: CertificateId, certType: int, issuer: KeyId, data: KeyData, signed: bool, revocation: Option<Revocation>)

  /** key_cert_pair. */
  datatype Link = Link(subject: PublicKey, cert: Certificate)

  datatype Chain = Chain(root: KeyId, links: seq<Link>)

  const EMPTY_CHAIN := Chain([], [])

  datatype Error =
    | NoSuchRootKey
    | InvalidChain
    | InvalidCaLevel
    | InvalidData
    | InvalidPublicKey
    | InvalidCertificate

  datatype Result<+T> = Ok(value: T) | Err(error: Error)

  /** The stores a verifier consults, and which signatures are good. */
  datatype World = World(
    roots: map<KeyId, PublicKey>,
    keys: map<KeyId, PublicKey>,
    certs: map<CertificateId, Certificate>,
    signs: (PublicKey, Certificate) -> bool,
    signsItself: PublicKey -> bool,
    revokes: (PublicKey, Revocation) -> bool)
  {
    /** find_root_key finds a root key under its own id. */
    predicate Consistent() {
      forall id :: id in roots ==> roots[id].id == id
    }

    predicate IsRevoked(cert: Certificate, issuer: PublicKey) {
      && cert.revocation.Some? && cert.signed
      && cert.revocation.value.target == cert.id
      && revokes(issuer, cert.revocation.value)
    }

    predicate CertAuthentic(cert: Certificate, issuer: PublicKey) {
      signs(issuer, cert) && !IsRevoked(cert, issuer)
    }

    predicate RevokedInStore(cert: Certificate, issuer: PublicKey) {
      cert.id in certs && IsRevoked(certs[cert.id], issuer)
    }
  }

  predicate IsValid(chain: Chain) {
    chain.links != [] && chain.root != []
  }

  /** check_data: the level and the restriction of the link before. */
  datatype CheckData = CheckData(caLevel: nat, restriction: Restriction)

  const FROM_ROOT := CheckData(MAX_LEVEL, UNRESTRICTED)

  function DataOf(cert: Certificate): CheckData {
    CheckData(cert.data.caLevel, cert.data.restriction)
  }

  function CheckLinkCertificate(w: World, link: Link, previous: PublicKey): Option<Error> {
    if !w.CertAuthentic(link.cert, previous) then Some(InvalidCertificate)
    else if !w.signsItself(link.subject) then Some(InvalidPublicKey)
    else if link.cert.certType != KEY_CERTIFICATE then Some(InvalidCertificate)
    else if previous.id != link.cert.issuer then Some(InvalidData)
    else None
  }

  function CheckLinkData(link: Link, data: CheckData): Option<Error> {
    if link.cert.data.subject != link.subject.id then Some(InvalidData)
    else if link.cert.id !in link.subject.certIds then Some(InvalidData)
    else if data.caLevel <= link.cert.data.caLevel then Some(InvalidCaLevel)
    else if !IsSubsetOf(link.cert.data.restriction, data.restriction) then Some(InvalidData)
    else None
  }

  function CheckLink(w: World, link: Link, previous: PublicKey, data: CheckData): Option<Error> {
    var err := CheckLinkCertificate(w, link, previous);
    if err.Some? then err else CheckLinkData(link, data)
  }

  // ---- what an authentic chain is ----

  /** The key that must have signed link i. */
  function IssuerKey(root: PublicKey, links: seq<Link>, i: nat): PublicKey
    requires i < |links|
  {
    if i == 0 then root else links[i - 1].subject
  }

  function Before(links: seq<Link>, i: nat): CheckData
    requires i < |links|
  {
    if i == 0 then FROM_ROOT else DataOf(links[i - 1].cert)
  }

  predicate LinkFine(w: World, root: PublicKey, links: seq<Link>, i: nat)
    requires i < |links|
  {
    CheckLink(w, links[i], IssuerKey(root, links, i), Before(links, i)).None?
  }

  predicate LinkUnrevoked(w: World, root: PublicKey, links: seq<Link>, i: nat)
    requires i < |links|
  {
    !w.RevokedInStore(links[i].cert, IssuerKey(root, links, i))
  }

  predicate Authentic(w: World, chain: Chain) {
    && |chain.links| <= MAX_CHAIN_LENGTH && IsValid(chain) && chain.root in w.roots
    && var root := w.roots[chain.root];
       forall i :: 0 <= i < |chain.links| ==>
         LinkFine(w, root, chain.links, i) && LinkUnrevoked(w, root, chain.links, i)
  }

  // ---- chain_verify ----

  class ChainVerify {
    const w: World
    var previous: PublicKey
    var previousData: CheckData

    constructor (w: World, root: PublicKey)
      ensures this.w == w && previous == root && previousData == FROM_ROOT
    {
      this.w := w;
      previous := root;
      previousData := FROM_ROOT;
    }

    method CheckChainElement(link: Link) returns (fine: bool)
      modifies this
      ensures fine <==>
        && CheckLink(w, link, old(previous), old(previousData)).None?
        && !w.RevokedInStore(link.cert, old(previous))
      ensures fine ==> previous == link.subject && previousData == DataOf(link.cert)
      ensures !fine ==> previous == old(previous) && previousData == old(previousData)
    {
      var err := CheckLink(w, link, previous, previousData);
      if err.Some? {
        return false;
      }
      if w.RevokedInStore(link.cert, previous) {
        return false;
      }
      previous := link.subject;
      previousData := DataOf(link.cert);
      fine := true;
    }
  }

  /** certificate_chain. */
  class CertificateChain {
    var rootKeyId: KeyId
    var chain: seq<Link>

    ghost function View(): Chain
      reads this
    {
      Chain(rootKeyId, chain)
    }

    constructor (c: Chain)
      ensures View() == c
    {
      rootKeyId, chain := c.root, c.links;
    }

    method IsAuthentic(w: World) returns (res: bool)
      ensures res <==> Authentic(w, View())
    {
      if |chain| > MAX_CHAIN_LENGTH {
        return false;
      }
      res := IsValid(Chain(rootKeyId, chain));
      if res {
        res := rootKeyId in w.roots;
        if res {
          var root := w.roots[rootKeyId];
          var ver := new ChainVerify(w, root);
          var i := 0;
          while res && i < |chain|
            invariant i <= |chain| && ver.w == w
            invariant res ==> forall j :: 0 <= j < i ==>
              LinkFine(w, root, chain, j) && LinkUnrevoked(w, root, chain, j)
            invariant !res ==> exists j ::
              0 <= j < i && !(LinkFine(w, root, chain, j) && LinkUnrevoked(w, root, chain, j))
            invariant res && i < |chain| ==>
              ver.previous == IssuerKey(root, chain, i) && ver.previousData == Before(chain, i)
            decreases |chain| - i
          {
            res := ver.CheckChainElement(chain[i]);
            assert res <==> LinkFine(w, root, chain, i) && LinkUnrevoked(w, root, chain, i);
            i := i + 1;
          }
        }
      }
    }

    /** The overload that also asks for a restriction to be met. */
    method IsAuthenticFor(w: World, rest: Restriction) returns (res: bool)
      ensures res <==>
        Authentic(w, View()) && IsSubsetOf(rest, chain[|chain| - 1].cert.data.restriction)
    {
      res := IsAuthentic(w);
      if res {
        res := IsSubsetOf(rest, chain[|chain| - 1].cert.data.restriction);
      }
    }

    /** add_link without a key store: not for an empty chain. */
    method AddLinkToChain(w: World, link: Link) returns (err: Option<Error>)
      modifies this
      ensures old(chain) == [] ==> err == Some(NoSuchRootKey)
      ensures old(chain) != [] ==> Result(err, View()) == Linked(w, old(View()), link)
      ensures err.Some? ==> View() == old(View())
    {
      if chain == [] {
        return Some(NoSuchRootKey);
      }
      if rootKeyId == [] {
        return Some(InvalidChain);
      }
      var last := chain[|chain| - 1];
      err := CheckLink(w, link, last.subject, DataOf(last.cert));
      if err.None? {
        chain := chain + [link];
      }
    }

    method AddLink(w: World, link: Link) returns (err: Option<Error>)
      modifies this
      ensures Result(err, View()) == Linked(w, old(View()), link)
      ensures err.Some? ==> View() == old(View())
    {
      var previous: PublicKey;
      var data := FROM_ROOT;
      if chain == [] {
        if link.cert.issuer !in w.roots {
          return Some(NoSuchRootKey);
        }
        previous := w.roots[link.cert.issuer];
      } else {
        if rootKeyId == [] {
          return Some(InvalidChain);
        }
        previous := chain[|chain| - 1].subject;
        data := DataOf(chain[|chain| - 1].cert);
      }
      err := CheckLink(w, link, previous, data);
      if err.None? {
        if chain == [] {
          rootKeyId := previous.id;
          assert chain + [link] == [link];
        }
        chain := chain + [link];
      }
    }

    static function Result(err: Option<Error>, c: Chain): Result<Chain> {
      if err.Some? then Err(err.value) else Ok(c)
    }
  }

  /** add_link with a key store. */
  function Linked(w: World, c: Chain, link: Link): Result<Chain> {
    if c.links == [] then
      if link.cert.issuer !in w.roots then Err(NoSuchRootKey) else
        var root := w.roots[link.cert.issuer];
        match CheckLink(w, link, root, FROM_ROOT)
        case Some(e) => Err(e)
        case None => Ok(Chain(root.id, [link]))
    else if c.root == [] then Err(InvalidChain)
    else
      var last := c.links[|c.links| - 1];
      match CheckLink(w, link, last.subject, DataOf(last.cert))
      case Some(e) => Err(e)
      case None => Ok(Chain(c.root, c.links + [link]))
  }

  /** Adding links one by one to an empty chain. */
  function Grow(w: World, links: seq<Link>): Result<Chain>
    decreases |links|
  {
    if links == [] then Ok(EMPTY_CHAIN) else
      match Grow(w, links[..|links| - 1])
      case Err(e) => Err(e)
      case Ok(c) => Linked(w, c, links[|links| - 1])
  }

  // ---- what authenticity means ----

  /** Short, with strictly falling levels, each link issued to the key that issues the
      next, and restrictions within those of all ancestors. */
  lemma AuthenticChainShape(w: World, c: Chain, i: nat, j: nat)
    requires Authentic(w, c) && i < j < |c.links|
    ensures |c.links| <= 16
    ensures c.links[i].cert.data.caLevel > c.links[j].cert.data.caLevel
    ensures j == i + 1 ==> c.links[j].cert.issuer == c.links[i].subject.id == c.links[i].cert.data.subject
    ensures IsSubsetOf(c.links[j].cert.data.restriction, c.links[i].cert.data.restriction)
    ensures w.signs(IssuerKey(w.roots[c.root], c.links, j), c.links[j].cert)
    ensures c.links[j].cert.id in c.links[j].subject.certIds
    decreases j
  {
    hide IsSubsetOf;
    assert LinkFine(w, w.roots[c.root], c.links, j);
    assert LinkFine(w, w.roots[c.root], c.links, i);
    if i + 1 < j {
      AuthenticChainShape(w, c, i, j - 1);
      SubsetTransitive(c.links[j].cert.data.restriction, c.links[j - 1].cert.data.restriction,
                       c.links[i].cert.data.restriction);
    }
  }

  /** No revocation of its own that the issuer signed. */
  ghost predicate Unrevoked(w: World, issuer: PublicKey, cert: Certificate) {
    forall rev :: cert.revocation == Some(rev) && cert.signed && rev.target == cert.id ==> !w.revokes(issuer, rev)
  }

  /** What makes a link trustworthy by itself: who signed what, and for whom; neither the
      certificate nor the verifier's copy of it is revoked. */
  ghost predicate LinkSound(w: World, root: PublicKey, links: seq<Link>, j: nat)
    requires j < |links|
  {
    var issuer := if j == 0 then root else links[j - 1].subject;
    var cert, subject := links[j].cert, links[j].subject;
    && w.signs(issuer, cert) && w.signsItself(subject)
    && Unrevoked(w, issuer, cert)
    && (cert.id in w.certs ==> Unrevoked(w, issuer, w.certs[cert.id]))
    && cert.certType == 1 && cert.issuer == issuer.id
    && cert.data.subject == subject.id && cert.id in subject.certIds
  }

  /** And its place below all its ancestors, not only the one before. */
  predicate Below(links: seq<Link>, i: nat, j: nat)
    requires i < j < |links|
  {
    && links[j].cert.data.caLevel < links[i].cert.data.caLevel
    && IsSubsetOf(links[j].cert.data.restriction, links[i].cert.data.restriction)
  }

  ghost predicate ChainSound(w: World, c: Chain) {
    && 1 <= |c.links| <= 16 && c.root != [] && c.root in w.roots
    && (forall j :: 0 <= j < |c.links| ==> LinkSound(w, w.roots[c.root], c.links, j))
    && (forall i, j :: 0 <= i < j < |c.links| ==> Below(c.links, i, j))
  }

  /** A chain is authentic exactly if it has 1 to 16 links from a known root, every link is
      sound, and every link is below all of its ancestors. */
  lemma AuthenticExactly(w: World, c: Chain)
    ensures Authentic(w, c) <==> ChainSound(w, c)
  {
    hide IsSubsetOf;
    if Authentic(w, c) {
      forall j | 0 <= j < |c.links|
        ensures LinkSound(w, w.roots[c.root], c.links, j)
      {
        assert LinkFine(w, w.roots[c.root], c.links, j);
      }
      forall i, j | 0 <= i < j < |c.links|
        ensures Below(c.links, i, j)
      {
        AuthenticChainShape(w, c, i, j);
      }
    }
    if ChainSound(w, c) {
      forall j | 0 <= j < |c.links|
        ensures LinkFine(w, w.roots[c.root], c.links, j) && LinkUnrevoked(w, w.roots[c.root], c.links, j)
      {
        assert LinkSound(w, w.roots[c.root], c.links, j);
        assert j > 0 ==> Below(c.links, j - 1, j);
        SoundIsFine(w, w.roots[c.root], c.links, j);
      }
    }
  }

  lemma SoundIsFine(w: World, root: PublicKey, links: seq<Link>, j: nat)
    requires j < |links| && LinkSound(w, root, links, j) && (j > 0 ==> Below(links, j - 1, j))
    ensures LinkFine(w, root, links, j)
  {
    if j == 0 {
      assert IsSubsetOf(links[j].cert.data.restriction, UNRESTRICTED);
    }
  }

  // ---- why a link is refused ----

  /** The tests of a link, in the order they are made, and the error of each. */
  ghost function Tests(w: World, link: Link, issuer: PublicKey, level: nat, restriction: Restriction): (t: seq<bool>)
    ensures |t| == 8
  {
    var cert, subject := link.cert, link.subject;
    [w.signs(issuer, cert) && Unrevoked(w, issuer, cert),
     w.signsItself(subject),
     cert.certType == 1,
     cert.issuer == issuer.id,
     cert.data.subject == subject.id,
     cert.id in subject.certIds,
     cert.data.caLevel < level,
     IsSubsetOf(cert.data.restriction, restriction)]
  }

  const TEST_ERRORS := [
    InvalidCertificate, InvalidPublicKey, InvalidCertificate, InvalidData,
    InvalidData, InvalidData, InvalidCaLevel, InvalidData]

  /** A link is refused with the error of the first test it fails. */
  lemma LinkErrorExactly(w: World, link: Link, issuer: PublicKey, level: nat, restriction: Restriction)
    ensures var t := Tests(w, link, issuer, level, restriction);
      var err := CheckLink(w, link, issuer, CheckData(level, restriction));
      && (err == None <==> forall n :: 0 <= n < 8 ==> t[n])
      && (forall n :: 0 <= n < 8 && !t[n] && (forall k :: 0 <= k < n ==> t[k]) ==> err == Some(TEST_ERRORS[n]))
  {
    hide IsSubsetOf;
    assert Unrevoked(w, issuer, link.cert) <==> !w.IsRevoked(link.cert, issuer);
    var t := Tests(w, link, issuer, level, restriction);
    assert t[0] && t[1] && t[2] && t[3] && t[4] && t[5] && t[6] && t[7] <==> forall n :: 0 <= n < 8 ==> t[n];
  }

  /** A first link is tested against the root key that its issuer names, at a level above
      all others and without a restriction; a later one against the link before it. */
  lemma AddLinkExactly(w: World, c: Chain, link: Link)
    ensures Linked(w, c, link) == Err(NoSuchRootKey) <==> c.links == [] && link.cert.issuer !in w.roots
    ensures Linked(w, c, link) == Err(InvalidChain) <==> c.links != [] && c.root == []
    ensures c.links == [] && link.cert.issuer in w.roots ==>
      var root := w.roots[link.cert.issuer];
      var t := Tests(w, link, root, 2147483647, Restriction(""));
      && (Linked(w, c, link) == Ok(Chain(root.id, [link])) <==> forall n :: 0 <= n < 8 ==> t[n])
      && (forall n :: 0 <= n < 8 && !t[n] && (forall k :: 0 <= k < n ==> t[k]) ==>
           Linked(w, c, link) == Err(TEST_ERRORS[n]))
    ensures c.links != [] && c.root != [] ==>
      var last := c.links[|c.links| - 1];
      var t := Tests(w, link, last.subject, last.cert.data.caLevel, last.cert.data.restriction);
      && (Linked(w, c, link) == Ok(Chain(c.root, c.links + [link])) <==> forall n :: 0 <= n < 8 ==> t[n])
      && (forall n :: 0 <= n < 8 && !t[n] && (forall k :: 0 <= k < n ==> t[k]) ==>
           Linked(w, c, link) == Err(TEST_ERRORS[n]))
  {
    if c.links == [] && link.cert.issuer in w.roots {
      LinkErrorExactly(w, link, w.roots[link.cert.issuer], 2147483647, Restriction(""));
    } else if c.links != [] {
      var last := c.links[|c.links| - 1];
      LinkErrorExactly(w, link, last.subject, last.cert.data.caLevel, last.cert.data.restriction);
    }
    NeverTheOthers(w, link);
    hide Tests, CheckLink;
  }

  /** No test of a link has the errors of the chain itself. */
  lemma NeverTheOthers(w: World, link: Link)
    ensures forall issuer, data ::
      CheckLink(w, link, issuer, data) != Some(NoSuchRootKey) && CheckLink(w, link, issuer, data) != Some(InvalidChain)
  {
  }

  predicate AllFine(w: World, root: PublicKey, links: seq<Link>) {
    forall i :: 0 <= i < |links| ==> LinkFine(w, root, links, i)
  }

  lemma FinePrefix(w: World, root: PublicKey, links: seq<Link>, last: Link)
    ensures AllFine(w, root, links + [last]) <==>
      AllFine(w, root, links) && LinkFine(w, root, links + [last], |links|)
  {
    var more := links + [last];
    forall i | 0 <= i < |links|
      ensures LinkFine(w, root, more, i) <==> LinkFine(w, root, links, i)
    {
      assert more[i] == links[i];
      assert i > 0 ==> more[i - 1] == links[i - 1];
    }
  }

  /** Growing succeeds exactly on links that check out from the root the first one names;
      only a root with an empty id stops a second link. */
  lemma {:induction false} GrowExactly(w: World, links: seq<Link>)
    requires w.Consistent() && links != []
    ensures var id := links[0].cert.issuer;
      && (Grow(w, links).Ok? <==>
           id in w.roots && AllFine(w, w.roots[id], links) && (id != [] || |links| == 1))
      && (Grow(w, links).Ok? ==> Grow(w, links).value == Chain(id, links))
    decreases |links|
  {
    hide CheckLink;
    var n := |links| - 1;
    var front, last := links[..n], links[n];
    assert links == front + [last];
    if n == 0 {
      assert Grow(w, front) == Ok(EMPTY_CHAIN);
      assert links[0].cert.issuer in w.roots ==>
        (AllFine(w, w.roots[links[0].cert.issuer], links)
         <==> LinkFine(w, w.roots[links[0].cert.issuer], links, 0));
      assert links == [last];
    } else {
      GrowExactly(w, front);
      if links[0].cert.issuer in w.roots {
        FinePrefix(w, w.roots[links[0].cert.issuer], front, last);
      }
    }
  }

  /** A chain grown from nothing is authentic exactly if it is short enough, its root has
      an id, and the verifier's store revokes none of its links. */
  lemma GrownIsAuthentic(w: World, links: seq<Link>)
    requires w.Consistent() && links != [] && Grow(w, links).Ok?
    ensures var c := Grow(w, links).value;
      && c.root in w.roots
      && (Authentic(w, c) <==>
          && |links| <= MAX_CHAIN_LENGTH && c.root != []
          && forall i :: 0 <= i < |links| ==> LinkUnrevoked(w, w.roots[c.root], links, i))
  {
    hide CheckLink, Grow;
    GrowExactly(w, links);
  }

  /** And an authentic chain is the one its links grow into. */
  lemma AuthenticIsGrown(w: World, c: Chain)
    requires w.Consistent() && Authentic(w, c)
    ensures Grow(w, c.links) == Ok(c)
  {
    assert LinkFine(w, w.roots[c.root], c.links, 0);
    assert c.links[0].cert.issuer == c.root;
    hide CheckLink, Grow;
    GrowExactly(w, c.links);
  }
}
