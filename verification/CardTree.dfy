/** The `card:/` tree (components/kio/CardTree.cpp) and what the worker lists and serves below it
    (CardWorkerLogic::doListDir and doGet): a path is resolved the same way it was listed. */
module CardTree {
  import opened Wrappers
  import opened CertFolders
  import opened Decimal
  import opened Text

  datatype Presence = Presence(readerName: string, cardId: string, identity: bool, pki: bool, emrtd: bool)

  datatype Kind =
    | Invalid | Root | ReaderDir | IdentityDir | PkiDir | CertDir
    | InfoLeaf | IdentityLeaf | PhotoLeaf | CertInfoLeaf | CertDerLeaf | CertPemLeaf

  datatype Node = Node(kind: Kind, certFolder: string, presence: Option<Presence>)

  const NOTHING := Node(Invalid, "", None)

  predicate IsDir(k: Kind) {
    k == Root || k == ReaderDir || k == IdentityDir || k == PkiDir || k == CertDir
  }

  // ---- Paths ----

  /** The non-empty segments of a path. */
  function Segments(path: string): seq<string> {
    Split(path, '/', [])
  }

  function Child(path: string, name: string): string {
    path + "/" + name
  }

  predicate IsSegment(name: string) {
    name != [] && '/' !in name
  }

  lemma SegmentsChild(path: string, name: string)
    requires IsSegment(name)
    ensures Segments(Child(path, name)) == Segments(path) + [name]
  {
    SplitConcat(path, name, '/', []);
    SplitRun(name, '/', []);
    assert [] + name == name;
  }

  // ---- The tree ----

  function PresenceFor(readers: seq<Presence>, name: string): Option<Presence> {
    if readers == [] then None
    else if readers[0].readerName == name then Some(readers[0])
    else PresenceFor(readers[1..], name)
  }

  function PhotoLeafName(p: Presence): string {
    if p.emrtd then "photo.jp2" else "photo.jpg"
  }

  function CertLeaf(name: string): Kind {
    if name == "info.txt" then CertInfoLeaf
    else if name == "certificate.der" then CertDerLeaf
    else if name == "certificate.pem" then CertPemLeaf
    else Invalid
  }

  function ResolveSegments(readers: seq<Presence>, seg: seq<string>): Node {
    if seg == [] then Node(Root, "", None)
    else
      match PresenceFor(readers, seg[0])
      case None => NOTHING
      case Some(p) =>
        if |seg| == 1 then Node(ReaderDir, "", Some(p))
        else if |seg| == 2 && seg[1] == "info.txt" then Node(InfoLeaf, "", Some(p))
        else if seg[1] == "Identity" && p.identity then
          if |seg| == 2 then Node(IdentityDir, "", Some(p))
          else if |seg| == 3 && seg[2] == "identity.txt" then Node(IdentityLeaf, "", Some(p))
          else if |seg| == 3 && seg[2] == PhotoLeafName(p) then Node(PhotoLeaf, "", Some(p))
          else NOTHING
        else if seg[1] == "PKI" && p.pki then
          if |seg| == 2 then Node(PkiDir, "", Some(p))
          else if |seg| == 3 then Node(CertDir, seg[2], Some(p))
          else if |seg| == 4 && CertLeaf(seg[3]) != Invalid then Node(CertLeaf(seg[3]), seg[2], Some(p))
          else NOTHING
        else NOTHING
  }

  function ResolvePath(readers: seq<Presence>, path: string): Node {
    ResolveSegments(readers, Segments(path))
  }

  function ReaderNames(readers: seq<Presence>): (names: seq<string>)
    ensures |names| == |readers|
  {
    seq(|readers|, i requires 0 <= i < |readers| => readers[i].readerName)
  }

  function ReaderChildren(p: Presence): seq<string> {
    ["info.txt"] + (if p.identity then ["Identity"] else []) + (if p.pki then ["PKI"] else [])
  }

  /** The names the tree knows without reading the card. */
  function List(readers: seq<Presence>, path: string): seq<string> {
    var seg := Segments(path);
    if seg == [] then ReaderNames(readers)
    else
      match PresenceFor(readers, seg[0])
      case None => []
      case Some(p) =>
        if |seg| == 1 then ReaderChildren(p)
        else if |seg| == 2 && seg[1] == "Identity" && p.identity then ["identity.txt", PhotoLeafName(p)]
        else []
  }

  /** `CardTree::list`, appending in its loops. */
  method ListNames(readers: seq<Presence>, path: string) returns (names: seq<string>)
    ensures names == List(readers, path)
  {
    var seg := Segments(path);
    names := [];
    if seg == [] {
      for i := 0 to |readers|
        invariant names == ReaderNames(readers)[..i]
      {
        names := names + [readers[i].readerName];
      }
      return;
    }
    var presence := PresenceFor(readers, seg[0]);
    if presence.None? {
      return;
    }
    var p := presence.value;
    if |seg| == 1 {
      names := ["info.txt"];
      if p.identity {
        names := names + ["Identity"];
      }
      if p.pki {
        names := names + ["PKI"];
      }
      return;
    }
    if |seg| == 2 && seg[1] == "Identity" && p.identity {
      names := ["identity.txt", PhotoLeafName(p)];
    }
  }

  /** A name means the first reader that goes by it. */
  lemma {:induction false} PresenceAt(readers: seq<Presence>, name: string, i: nat)
    requires i < |readers| && readers[i].readerName == name
    requires forall j :: 0 <= j < i ==> readers[j].readerName != name
    ensures PresenceFor(readers, name) == Some(readers[i])
  {
    if i > 0 {
      assert forall j :: 0 <= j < i - 1 ==> readers[1..][j] == readers[j + 1];
      PresenceAt(readers[1..], name, i - 1);
    }
  }

  lemma {:induction false} PresenceIn(readers: seq<Presence>, name: string)
    ensures PresenceFor(readers, name).Some? <==> name in ReaderNames(readers)
  {
    if readers != [] {
      PresenceIn(readers[1..], name);
      assert ReaderNames(readers)[1..] == ReaderNames(readers[1..]);
      if readers[0].readerName == name {
        assert ReaderNames(readers)[0] == name;
      }
    }
  }

  /** The directories whose children the tree itself names. */
  predicate ListedByTree(k: Kind) {
    k == Root || k == ReaderDir || k == IdentityDir
  }

  /** In such a directory the names listed and the names that resolve are the same names. */
  lemma ListedIffResolves(readers: seq<Presence>, path: string, name: string)
    requires ListedByTree(ResolvePath(readers, path).kind) && IsSegment(name)
    ensures name in List(readers, path) <==> ResolvePath(readers, Child(path, name)).kind != Invalid
  {
    SegmentsChild(path, name);
    PresenceIn(readers, name);
    var seg := Segments(path);
    if |seg| == 1 {
      var p := PresenceFor(readers, seg[0]).value;
      ChildrenOf(p, name);
    }
  }

  lemma ChildrenOf(p: Presence, name: string)
    ensures name in ReaderChildren(p) <==>
              name == "info.txt" || (name == "Identity" && p.identity) || (name == "PKI" && p.pki)
  {
    assert "Identity" != "info.txt" && "PKI" != "info.txt";
  }

  /** What the paths of a reader's tree lead to, spelled out. */
  lemma TreeSpelled(readers: seq<Presence>, reader: string, p: Presence)
    requires PresenceFor(readers, reader) == Some(p)
    ensures ResolveSegments(readers, []).kind == Root && ResolveSegments(readers, [reader]).kind == ReaderDir
    ensures ResolveSegments(readers, [reader, "info.txt"]) == Node(InfoLeaf, "", Some(p))
    ensures p.identity ==>
              && ResolveSegments(readers, [reader, "Identity"]).kind == IdentityDir
              && ResolveSegments(readers, [reader, "Identity", "identity.txt"]) == Node(IdentityLeaf, "", Some(p))
              && ResolveSegments(readers, [reader, "Identity", if p.emrtd then "photo.jp2" else "photo.jpg"])
                 == Node(PhotoLeaf, "", Some(p))
    ensures p.pki ==> ResolveSegments(readers, [reader, "PKI"]).kind == PkiDir
    ensures !p.identity ==> ResolveSegments(readers, [reader, "Identity"]).kind == Invalid
    ensures !p.pki ==> ResolveSegments(readers, [reader, "PKI"]).kind == Invalid
  {
    assert "Identity" != "info.txt" && "PKI" != "info.txt" && "Identity" != "PKI";
    assert "photo.jp2" != "identity.txt" && "photo.jpg" != "identity.txt";
  }

  // ---- What the worker emits ----

  /** A directory entry: the name, and whether it is shown as a directory. */
  datatype Listed = Listed(name: string, dir: bool)

  function AsDirs(names: seq<string>): (r: seq<Listed>)
    ensures |r| == |names|
  {
    seq(|names|, i requires 0 <= i < |names| => Listed(names[i], true))
  }

  /** The children `doListDir` emits, given what reading the card's certificates would return. */
  function Emitted(readers: seq<Presence>, path: string, certs: seq<Certificate>): seq<Listed> {
    var node := ResolvePath(readers, path);
    var names := List(readers, path);
    match node.kind
    case Root => AsDirs(names)
    case ReaderDir => seq(|names|, i requires 0 <= i < |names| => Listed(names[i], names[i] != "info.txt"))
    case IdentityDir => seq(|names|, i requires 0 <= i < |names| => Listed(names[i], false))
    case PkiDir => seq(|Folders(certs)|, i requires 0 <= i < |Folders(certs)| => Listed(Folders(certs)[i].name, true))
    case CertDir => [Listed("info.txt", false), Listed("certificate.der", false), Listed("certificate.pem", false)]
    case _ => []
  }

  /** Every entry shown opens: it resolves, and to a directory exactly when it is shown as one. */
  lemma EmittedResolves(readers: seq<Presence>, path: string, certs: seq<Certificate>, e: Listed)
    requires e in Emitted(readers, path, certs) && IsSegment(e.name)
    ensures ResolvePath(readers, Child(path, e.name)).kind != Invalid
    ensures IsDir(ResolvePath(readers, Child(path, e.name)).kind) <==> e.dir
  {
    var seg, names := Segments(path), List(readers, path);
    SegmentsChild(path, e.name);
    var i :| 0 <= i < |Emitted(readers, path, certs)| && Emitted(readers, path, certs)[i] == e;
    var kind := ResolvePath(readers, path).kind;
    if ListedByTree(kind) {
      assert names[i] == e.name;
      ListedIffResolves(readers, path, e.name);
      DirLevels(readers, seg + [e.name]);
    }
    assert "certificate.der" != "info.txt" && "certificate.pem" != "info.txt";
  }

  /** Below a certificate's folder the files shown are the files that open. */
  lemma CertFilesIff(readers: seq<Presence>, path: string, certs: seq<Certificate>, name: string)
    requires ResolvePath(readers, path).kind == CertDir && IsSegment(name)
    ensures Listed(name, false) in Emitted(readers, path, certs) <==>
            ResolvePath(readers, Child(path, name)).kind != Invalid
  {
    SegmentsChild(path, name);
  }

  /** The entry's URL leads to what the entry was shown for: the reader or the certificate folder of that very name,
      or the fixed file or directory. */
  predicate OpensItself(readers: seq<Presence>, path: string, e: Listed) {
    var node := ResolvePath(readers, Child(path, e.name));
    match ResolvePath(readers, path).kind
    case Root => node.kind == ReaderDir && node.presence.Some? && node.presence.value.readerName == e.name
    case PkiDir => node.kind == CertDir && node.certFolder == e.name
    case _ => node.kind != Invalid && (IsDir(node.kind) <==> e.dir)
  }

  /** Every entry shown opens itself exactly when its name is one segment of a URL: not empty, and without a slash. */
  lemma EmittedOpensIff(readers: seq<Presence>, path: string, certs: seq<Certificate>, e: Listed)
    requires e in Emitted(readers, path, certs)
    ensures OpensItself(readers, path, e) <==> IsSegment(e.name)
  {
    if IsSegment(e.name) {
      EmittedResolves(readers, path, certs, e);
      SegmentsChild(path, e.name);
      PresenceNamed(readers, e.name);
    } else {
      NotItself(readers, path, certs, e);
    }
  }

  lemma {:induction false} PresenceNamed(readers: seq<Presence>, name: string)
    ensures PresenceFor(readers, name).Some? ==> PresenceFor(readers, name).value.readerName == name
  {
    if readers != [] {
      PresenceNamed(readers[1..], name);
    }
  }

  /** A path that stands for a name and one more segment does so only for a name that is one. */
  lemma OneMoreSegment(path: string, name: string)
    requires !IsSegment(name)
    ensures var seg, more := Segments(path), Segments(name);
            Segments(Child(path, name)) == seg + more && (|more| == 1 ==> more[0] != name)
  {
    SplitConcat(path, name, '/', []);
    SplitRuns(name, '/', []);
    assert |Segments(name)| == 1 ==> Segments(name)[0] in Segments(name);
  }

  lemma ReaderNotItself(readers: seq<Presence>, path: string, name: string)
    requires Segments(path) == [] && !IsSegment(name)
    ensures var node := ResolvePath(readers, Child(path, name));
            node.kind == ReaderDir && node.presence.Some? ==> node.presence.value.readerName != name
  {
    OneMoreSegment(path, name);
    var more := Segments(name);
    assert [] + more == more;
    if |more| > 0 {
      PresenceNamed(readers, more[0]);
    }
  }

  lemma FolderNotItself(readers: seq<Presence>, path: string, name: string)
    requires |Segments(path)| == 2 && !IsSegment(name)
    ensures var node := ResolvePath(readers, Child(path, name)); node.kind == CertDir ==> node.certFolder != name
  {
    OneMoreSegment(path, name);
  }

  lemma NotItself(readers: seq<Presence>, path: string, certs: seq<Certificate>, e: Listed)
    requires e in Emitted(readers, path, certs) && !IsSegment(e.name)
    ensures !OpensItself(readers, path, e)
  {
    var i: nat :| i < |Emitted(readers, path, certs)| && Emitted(readers, path, certs)[i] == e;
    match ResolvePath(readers, path).kind
    case Root => ReaderNotItself(readers, path, e.name);
    case PkiDir => FolderNotItself(readers, path, e.name);
    case _ => FixedNames(readers, path, certs, i);
  }

  /** Elsewhere the names are fixed. */
  lemma FixedNames(readers: seq<Presence>, path: string, certs: seq<Certificate>, i: nat)
    requires i < |Emitted(readers, path, certs)|
    requires ResolvePath(readers, path).kind != Root && ResolvePath(readers, path).kind != PkiDir
    ensures IsSegment(Emitted(readers, path, certs)[i].name)
  {
    match ResolvePath(readers, path).kind
    case ReaderDir => ReaderChildSegments(ResolvePath(readers, path).presence.value, i);
    case IdentityDir => LeafSegments();
    case _ => LeafSegments();
  }

  lemma LeafSegments()
    ensures IsSegment("identity.txt") && IsSegment("photo.jp2") && IsSegment("photo.jpg")
    ensures IsSegment("info.txt") && IsSegment("certificate.der") && IsSegment("certificate.pem")
  {
  }

  lemma ReaderChildSegments(p: Presence, i: nat)
    requires i < |ReaderChildren(p)|
    ensures IsSegment(ReaderChildren(p)[i])
  {
    LeafSegments();
    ChildrenOf(p, ReaderChildren(p)[i]);
    assert ReaderChildren(p)[i] in ReaderChildren(p);
    assert IsSegment("Identity") && IsSegment("PKI");
  }

  /** Which paths are directories, by their depth. */
  lemma DirLevels(readers: seq<Presence>, seg: seq<string>)
    requires ResolveSegments(readers, seg).kind != Invalid && 1 <= |seg| <= 3
    ensures |seg| == 1 ==> ResolveSegments(readers, seg).kind == ReaderDir
    ensures |seg| == 2 ==> (IsDir(ResolveSegments(readers, seg).kind) <==> seg[1] != "info.txt")
    ensures |seg| == 3 && seg[1] == "Identity" ==> !IsDir(ResolveSegments(readers, seg).kind)
  {
    assert "Identity" != "info.txt" && "PKI" != "info.txt" && "Identity" != "PKI";
  }

  // ---- What the worker serves ----

  /** What a leaf below a certificate folder serves: the certificate asked of the agent by id, or the one
      described. */
  datatype Served = NoSuchFile | Der(certId: string) | Pem(certId: string) | Info(cert: Certificate)

  function ServeCertLeaf(node: Node, certs: seq<Certificate>): Served {
    var id := Resolve(Folders(certs), node.certFolder);
    if id == "" then NoSuchFile
    else
      match node.kind
      case CertDerLeaf => Der(id)
      case CertPemLeaf => Pem(id)
      case CertInfoLeaf => (match Described(certs, id) case Some(c) => Info(c) case None => NoSuchFile)
      case _ => NoSuchFile
  }

  function Serve(readers: seq<Presence>, path: string, certs: seq<Certificate>): Served {
    ServeCertLeaf(ResolvePath(readers, path), certs)
  }

  /** A folder's name is one URL segment exactly when its certificate's shortened identifier has no slash. */
  lemma {:induction false} FolderIsSegmentIff(certs: seq<Certificate>, i: nat)
    requires i < |Folders(certs)|
    ensures IsSegment(Folders(certs)[i].name) <==> '/' !in Left(Folders(certs)[i].certId, 8)
    ensures InnerSlashes(Folders(certs)[i].name)
    decreases |certs|
  {
    var init, last := certs[..|certs| - 1], certs[|certs| - 1];
    if i < |Folders(init)| {
      FolderIsSegmentIff(init, i);
    } else {
      StableSlashes(last);
      NumberedSlashes(StableName(last), Seen(init, StableName(last)));
    }
  }

  /** Whatever slashes there are stand inside. */
  predicate InnerSlashes(name: string) {
    name != [] && name[0] != '/' && name[|name| - 1] != '/'
  }

  lemma StableSlashes(c: Certificate)
    ensures '/' in StableName(c) <==> '/' in Left(c.id, 8)
    ensures InnerSlashes(StableName(c))
  {
    PurposeNoSlash(c.keyUsageBits);
    var purpose := if PrimaryPurpose(c.keyUsageBits) == "" then "Certificate" else PrimaryPurpose(c.keyUsageBits);
    assert '/' !in purpose;
    assert StableName(c) == purpose + " (" + Left(c.id, 8) + ")";
    assert purpose[0] in purpose;
  }

  lemma PurposeNoSlash(mask: bv32)
    ensures '/' !in PrimaryPurpose(mask)
  {
    UsageNoSlash(mask, 2);
  }

  lemma {:induction false} UsageNoSlash(mask: bv32, i: nat)
    requires i <= 9
    ensures '/' !in FirstUsage(mask, i)
    decreases 9 - i
  {
    if i < 9 {
      UsageNoSlash(mask, i + 1);
    }
  }

  lemma NumberedSlashes(base: string, n: nat)
    requires InnerSlashes(base)
    ensures '/' in Numbered(base, n) <==> '/' in base
    ensures InnerSlashes(Numbered(base, n))
  {
    var number := Numeral(n + 1);
    assert forall c <- number :: c != '/';
    assert number[|number| - 1] in number;
  }

  /** From the listing to the bytes: below a listed folder the DER and PEM exports are those of the certificate
      the folder was listed for, and `info.txt` describes it whenever its identifier is its own, exactly when the
      certificate has an identifier whose shortened form has no slash; else there is nothing there. */
  lemma ListedFolderServes(readers: seq<Presence>, path: string, certs: seq<Certificate>, i: nat, c: Certificate)
    requires ResolvePath(readers, path).kind == PkiDir
    requires i < |Folders(certs)| && Folders(certs)[i].certId == c.id && c in certs
    ensures var folder := Child(path, Folders(certs)[i].name);
            var der, pem := Serve(readers, Child(folder, "certificate.der"), certs),
                            Serve(readers, Child(folder, "certificate.pem"), certs);
            var info := Serve(readers, Child(folder, "info.txt"), certs);
            if c.id != "" && '/' !in Left(c.id, 8)
            then der == Der(c.id) && pem == Pem(c.id) && (info == Info(c) <==> FirstOfItsId(certs, c))
            else der == NoSuchFile && pem == NoSuchFile && info == NoSuchFile
  {
    BelowFolder(readers, path, certs, i, "certificate.der");
    BelowFolder(readers, path, certs, i, "certificate.pem");
    BelowFolder(readers, path, certs, i, "info.txt");
    LeavesServe(certs, i, c);
  }

  /** What the three files hold once the folder is found. */
  lemma LeavesServe(certs: seq<Certificate>, i: nat, c: Certificate)
    requires i < |Folders(certs)| && Folders(certs)[i].certId == c.id
    ensures var name := Folders(certs)[i].name;
            if c.id != "" then
              && ServeCertLeaf(Node(CertDerLeaf, name, None), certs) == Der(c.id)
              && ServeCertLeaf(Node(CertPemLeaf, name, None), certs) == Pem(c.id)
              && (ServeCertLeaf(Node(CertInfoLeaf, name, None), certs) == Info(c) <==> FirstOfItsId(certs, c))
            else forall k :: ServeCertLeaf(Node(k, name, None), certs) == NoSuchFile
  {
    FolderNamesDistinct(certs);
    ResolveAt(Folders(certs), i);
    DescribedFirst(certs, c);
  }

  lemma BelowFolder(readers: seq<Presence>, path: string, certs: seq<Certificate>, i: nat, leaf: string)
    requires ResolvePath(readers, path).kind == PkiDir && i < |Folders(certs)| && CertLeaf(leaf) != Invalid
    ensures var folder := Folders(certs)[i];
            Serve(readers, Child(Child(path, folder.name), leaf), certs) ==
              if '/' in Left(folder.certId, 8) then NoSuchFile
              else ServeCertLeaf(Node(CertLeaf(leaf), folder.name, None), certs)
  {
    var name := Folders(certs)[i].name;
    FolderIsSegmentIff(certs, i);
    LeafSegments();
    if IsSegment(name) {
      FolderResolves(readers, path, name);
      LeafServes(readers, Child(path, name), certs, leaf);
    } else {
      TooDeep(readers, path, name, certs, leaf);
    }
  }

  /** A folder name with a slash in it makes a path that leads nowhere. */
  lemma TooDeep(readers: seq<Presence>, path: string, name: string, certs: seq<Certificate>, leaf: string)
    requires ResolvePath(readers, path).kind == PkiDir && InnerSlashes(name) && '/' in name && IsSegment(leaf)
    ensures Serve(readers, Child(Child(path, name), leaf), certs) == NoSuchFile
  {
    SegmentsChild(Child(path, name), leaf);
    SplitConcat(path, name, '/', []);
    SplitInside(name, '/');
    assert |Segments(Child(Child(path, name), leaf))| >= 5;
  }

  lemma FolderResolves(readers: seq<Presence>, path: string, name: string)
    requires ResolvePath(readers, path).kind == PkiDir && IsSegment(name)
    ensures ResolvePath(readers, Child(path, name)).kind == CertDir
    ensures ResolvePath(readers, Child(path, name)).certFolder == name
  {
    SegmentsChild(path, name);
  }

  lemma LeafServes(readers: seq<Presence>, folder: string, certs: seq<Certificate>, leaf: string)
    requires ResolvePath(readers, folder).kind == CertDir && CertLeaf(leaf) != Invalid
    ensures Serve(readers, Child(folder, leaf), certs) ==
              ServeCertLeaf(Node(CertLeaf(leaf), ResolvePath(readers, folder).certFolder, None), certs)
  {
    assert IsSegment(leaf);
    SegmentsChild(folder, leaf);
  }
}
