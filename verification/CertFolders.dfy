/** The certificate folders of a card's PKI directory (CardWorkerLogic::buildCertFolders): names that are URL
    segments, minted when the directory is listed and resolved again when a file below one is read. */
module CertFolders {
  import opened Wrappers
  import opened Decimal

  datatype Certificate = Certificate(id: string, keyUsageBits: bv32, signingCapable: bool)

  datatype Folder = Folder(name: string, certId: string)

  // ---- Names ----

  const KEY_USAGE_NAMES: seq<string> := [
    "Digital Signature", "Non-Repudiation", "Key Encipherment", "Data Encipherment", "Key Agreement",
    "Certificate Signing", "CRL Signing", "Encipher Only", "Decipher Only"]

  predicate UsageBitSet(mask: bv32, ordinal: nat)
    requires ordinal < 9
  {
    (mask & (1 << ordinal)) != 0
  }

  /** The first usage from `i` on that names itself. */
  function FirstUsage(mask: bv32, i: nat): string
    requires i <= 9
    decreases 9 - i
  {
    if i == 9 then "" else if UsageBitSet(mask, i) then KEY_USAGE_NAMES[i] else FirstUsage(mask, i + 1)
  }

  /** What the certificate is for; the second usage bit marks signing, the first alone authentication. */
  function PrimaryPurpose(mask: bv32): string {
    if UsageBitSet(mask, 1) then "Digital Signature"
    else if UsageBitSet(mask, 0) then "Authentication"
    else FirstUsage(mask, 2)
  }

  function Left(s: string, n: nat): string {
    if |s| <= n then s else s[..n]
  }

  /** The folder's name before it is told apart from others of the same name. */
  function StableName(c: Certificate): string {
    (if PrimaryPurpose(c.keyUsageBits) == "" then "Certificate" else PrimaryPurpose(c.keyUsageBits))
    + " (" + Left(c.id, 8) + ")"
  }

  /** The `n`-th folder of one name, counting from 0. */
  function Numbered(base: string, n: nat): string {
    if n == 0 then base else base + " ~" + Numeral(n + 1)
  }

  /** How many of the certificates have a folder of this name. */
  function Seen(certs: seq<Certificate>, base: string): nat {
    if certs == [] then 0
    else
      var last := certs[|certs| - 1];
      Seen(certs[..|certs| - 1], base) + if last.signingCapable && StableName(last) == base then 1 else 0
  }

  function Folders(certs: seq<Certificate>): seq<Folder> {
    if certs == [] then []
    else
      var init, last := certs[..|certs| - 1], certs[|certs| - 1];
      if !last.signingCapable then Folders(init)
      else Folders(init) + [Folder(Numbered(StableName(last), Seen(init, StableName(last))), last.id)]
  }

  /** Folder names in which Qt's numbered place markers cannot occur; the name of a repeated folder is filled in
      twice over the same text, and a marker in it would be filled in too. */
  predicate NoPlaceMarkers(certs: seq<Certificate>) {
    forall c <- certs :: c.signingCapable ==> '%' !in Left(c.id, 8)
  }

  function Count(seen: map<string, nat>, base: string): nat {
    if base in seen then seen[base] else 0
  }

  /** One pass, with a counter for each name. */
  method BuildCertFolders(certs: seq<Certificate>) returns (folders: seq<Folder>)
    requires NoPlaceMarkers(certs)
    ensures folders == Folders(certs)
  {
    folders := [];
    var seen: map<string, nat> := map[];
    for i := 0 to |certs|
      invariant folders == Folders(certs[..i])
      invariant forall base :: Count(seen, base) == Seen(certs[..i], base)
    {
      var c := certs[i];
      assert certs[..i + 1][..i] == certs[..i];
      if !c.signingCapable {
        continue;
      }
      var base := StableName(c);
      var n := Count(seen, base);
      seen := seen[base := n + 1];
      var name := if n == 0 then base else base + " ~" + Numeral(n + 1);
      folders := folders + [Folder(name, c.id)];
    }
    assert certs[..|certs|] == certs;
  }

  // ---- Distinct names ----

  /** One past the last closing parenthesis, which ends every base name. */
  function BaseEnd(s: string): nat {
    if s == [] then 0 else if s[|s| - 1] == ')' then |s| else BaseEnd(s[..|s| - 1])
  }

  lemma {:induction false} BaseEndSuffix(base: string, suffix: string)
    requires base != [] && base[|base| - 1] == ')' && ')' !in suffix
    ensures BaseEnd(base + suffix) == |base|
    decreases |suffix|
  {
    if suffix == [] {
      assert base + suffix == base;
    } else {
      assert suffix[|suffix| - 1] in suffix;
      assert (base + suffix)[..|base + suffix| - 1] == base + suffix[..|suffix| - 1];
      BaseEndSuffix(base, suffix[..|suffix| - 1]);
    }
  }

  lemma NumberedEnd(base: string, n: nat)
    requires base != [] && base[|base| - 1] == ')'
    ensures BaseEnd(Numbered(base, n)) == |base| && base <= Numbered(base, n)
  {
    if n == 0 {
      BaseEndSuffix(base, "");
      assert base + "" == base;
    } else {
      var suffix := " ~" + Numeral(n + 1);
      assert ')' !in Numeral(n + 1);
      BaseEndSuffix(base, suffix);
      assert Numbered(base, n) == base + suffix;
    }
  }

  /** A name tells its base and its number. */
  lemma NumberedInjective(a: string, m: nat, b: string, n: nat)
    requires a != [] && a[|a| - 1] == ')' && b != [] && b[|b| - 1] == ')'
    requires Numbered(a, m) == Numbered(b, n)
    ensures a == b && m == n
  {
    NumberedEnd(a, m);
    NumberedEnd(b, n);
    assert a == Numbered(a, m)[..|a|] == b;
    if m != 0 && n != 0 {
      var s := Numbered(a, m)[|a|..];
      assert s[2..] == Numeral(m + 1) && s[2..] == Numeral(n + 1);
      NumeralNumber(m + 1);
      NumeralNumber(n + 1);
    }
  }

  ghost predicate NumberedBelow(name: string, certs: seq<Certificate>, base: string, n: nat) {
    base != [] && base[|base| - 1] == ')' && n < Seen(certs, base) && name == Numbered(base, n)
  }

  lemma {:induction false} FolderNamesCounted(certs: seq<Certificate>)
    ensures forall f <- Folders(certs) :: exists base, n :: NumberedBelow(f.name, certs, base, n)
  {
    if certs != [] {
      var init, last := certs[..|certs| - 1], certs[|certs| - 1];
      FolderNamesCounted(init);
      forall f <- Folders(certs)
        ensures exists base, n :: NumberedBelow(f.name, certs, base, n)
      {
        if f in Folders(init) {
          var base, n :| NumberedBelow(f.name, init, base, n);
          assert NumberedBelow(f.name, certs, base, n);
        } else {
          assert NumberedBelow(f.name, certs, StableName(last), Seen(init, StableName(last)));
        }
      }
    }
  }

  ghost predicate NamesDistinct(folders: seq<Folder>) {
    forall i, j :: 0 <= i < j < |folders| ==> folders[i].name != folders[j].name
  }

  /** No two folders of a card have one name, whatever purposes and identifiers its certificates share. */
  lemma {:induction false} FolderNamesDistinct(certs: seq<Certificate>)
    ensures NamesDistinct(Folders(certs))
  {
    if certs != [] {
      var init, last := certs[..|certs| - 1], certs[|certs| - 1];
      FolderNamesDistinct(init);
      FolderNamesCounted(init);
      if last.signingCapable {
        var base := StableName(last);
        var minted := Numbered(base, Seen(init, base));
        forall i | 0 <= i < |Folders(init)|
          ensures Folders(init)[i].name != minted
        {
          var f := Folders(init)[i];
          assert f in Folders(init);
          var b, n :| NumberedBelow(f.name, init, b, n);
          if f.name == minted {
            NumberedInjective(b, n, base, Seen(init, base));
          }
        }
      }
    }
  }

  // ---- One folder a certificate, in order, for good ----

  function SigningIds(certs: seq<Certificate>): seq<string> {
    if certs == [] then []
    else SigningIds(certs[..|certs| - 1]) +
         if certs[|certs| - 1].signingCapable then [certs[|certs| - 1].id] else []
  }

  function CertIds(folders: seq<Folder>): (ids: seq<string>)
    ensures |ids| == |folders|
  {
    seq(|folders|, i requires 0 <= i < |folders| => folders[i].certId)
  }

  lemma {:induction false} OneFolderEach(certs: seq<Certificate>)
    ensures CertIds(Folders(certs)) == SigningIds(certs)
  {
    if certs != [] {
      OneFolderEach(certs[..|certs| - 1]);
    }
  }

  /** Certificates added to a card never rename the folders it had, so a bookmark keeps its meaning. */
  lemma {:induction false} FoldersStable(certs: seq<Certificate>, more: seq<Certificate>)
    ensures Folders(certs) <= Folders(certs + more)
    decreases |more|
  {
    if more == [] {
      assert certs + more == certs;
    } else {
      assert (certs + more)[..|certs + more| - 1] == certs + more[..|more| - 1];
      FoldersStable(certs, more[..|more| - 1]);
    }
  }

  // ---- What the names are ----

  /** A certificate that may commit to content is for signing, one that may only sign challenges for authentication,
      and any other goes by its first usage. */
  lemma PurposeIs(mask: bv32)
    ensures var purpose := PrimaryPurpose(mask);
            && (mask & 2 != 0 ==> purpose == "Digital Signature")
            && (mask & 2 == 0 && mask & 1 != 0 ==> purpose == "Authentication")
            && (mask & 3 == 0 && mask & 4 != 0 ==> purpose == "Key Encipherment")
            && (mask & 7 == 0 && mask & 8 != 0 ==> purpose == "Data Encipherment")
            && (mask & 0xF == 0 && mask & 0x10 != 0 ==> purpose == "Key Agreement")
            && (mask & 0x1F == 0 && mask & 0x20 != 0 ==> purpose == "Certificate Signing")
            && (mask & 0x3F == 0 && mask & 0x40 != 0 ==> purpose == "CRL Signing")
            && (mask & 0x7F == 0 && mask & 0x80 != 0 ==> purpose == "Encipher Only")
            && (mask & 0xFF == 0 && mask & 0x100 != 0 ==> purpose == "Decipher Only")
            && (mask & 0x1FF == 0 ==> purpose == "")
  {
    UsageBits(mask);
    UsageFrom(mask);
  }

  lemma UsageBits(mask: bv32)
    ensures UsageBitSet(mask, 0) <==> mask & 1 != 0
    ensures UsageBitSet(mask, 1) <==> mask & 2 != 0
    ensures UsageBitSet(mask, 2) <==> mask & 4 != 0
    ensures UsageBitSet(mask, 3) <==> mask & 8 != 0
    ensures UsageBitSet(mask, 4) <==> mask & 0x10 != 0
    ensures UsageBitSet(mask, 5) <==> mask & 0x20 != 0
    ensures UsageBitSet(mask, 6) <==> mask & 0x40 != 0
    ensures UsageBitSet(mask, 7) <==> mask & 0x80 != 0
    ensures UsageBitSet(mask, 8) <==> mask & 0x100 != 0
  {
  }

  lemma UsageFrom(mask: bv32)
    ensures FirstUsage(mask, 2) ==
              if UsageBitSet(mask, 2) then "Key Encipherment"
              else if UsageBitSet(mask, 3) then "Data Encipherment"
              else if UsageBitSet(mask, 4) then "Key Agreement"
              else if UsageBitSet(mask, 5) then "Certificate Signing"
              else if UsageBitSet(mask, 6) then "CRL Signing"
              else if UsageBitSet(mask, 7) then "Encipher Only"
              else if UsageBitSet(mask, 8) then "Decipher Only"
              else ""
  {
    assert FirstUsage(mask, 9) == "";
    assert FirstUsage(mask, 8) == if UsageBitSet(mask, 8) then "Decipher Only" else "";
    assert FirstUsage(mask, 7) == if UsageBitSet(mask, 7) then "Encipher Only" else FirstUsage(mask, 8);
    assert FirstUsage(mask, 6) == if UsageBitSet(mask, 6) then "CRL Signing" else FirstUsage(mask, 7);
    assert FirstUsage(mask, 5) == if UsageBitSet(mask, 5) then "Certificate Signing" else FirstUsage(mask, 6);
    assert FirstUsage(mask, 4) == if UsageBitSet(mask, 4) then "Key Agreement" else FirstUsage(mask, 5);
    assert FirstUsage(mask, 3) == if UsageBitSet(mask, 3) then "Data Encipherment" else FirstUsage(mask, 4);
  }

  /** The names of the signing certificates before they are told apart. */
  function BaseNames(certs: seq<Certificate>): seq<string> {
    if certs == [] then []
    else BaseNames(certs[..|certs| - 1]) +
         if certs[|certs| - 1].signingCapable then [StableName(certs[|certs| - 1])] else []
  }

  lemma {:induction false} SeenCounts(certs: seq<Certificate>, base: string)
    ensures Seen(certs, base) == multiset(BaseNames(certs))[base]
  {
    if certs != [] {
      SeenCounts(certs[..|certs| - 1], base);
    }
  }

  lemma {:induction false} BaseNamesLength(certs: seq<Certificate>)
    ensures |BaseNames(certs)| == |Folders(certs)|
  {
    if certs != [] {
      BaseNamesLength(certs[..|certs| - 1]);
    }
  }

  lemma {:induction false} NamedByCount(certs: seq<Certificate>, i: nat)
    requires i < |Folders(certs)| == |BaseNames(certs)|
    ensures var bases := BaseNames(certs);
            Folders(certs)[i].name == Numbered(bases[i], multiset(bases[..i])[bases[i]])
  {
    var init, last := certs[..|certs| - 1], certs[|certs| - 1];
    BaseNamesLength(init);
    if i < |Folders(init)| {
      NamedByCount(init, i);
      assert BaseNames(certs)[..i] == BaseNames(init)[..i];
    } else {
      SeenCounts(init, StableName(last));
      assert BaseNames(certs)[..i] == BaseNames(init);
      assert Folders(certs)[i].name == Numbered(StableName(last), Seen(init, StableName(last)));
    }
  }

  /** A folder goes by its certificate's purpose and the first eight characters of its identifier; the second of one
      name and every further one is numbered, from two on. */
  lemma FolderNameIs(certs: seq<Certificate>, i: nat)
    requires i < |Folders(certs)|
    ensures |BaseNames(certs)| == |Folders(certs)|
    ensures var bases := BaseNames(certs);
            var before := multiset(bases[..i])[bases[i]];
            Folders(certs)[i].name == if before == 0 then bases[i] else bases[i] + " ~" + Numeral(before + 1)
  {
    BaseNamesLength(certs);
    NamedByCount(certs, i);
  }

  lemma StableNameIs(c: Certificate)
    ensures var purpose := PrimaryPurpose(c.keyUsageBits);
            var id := if |c.id| <= 8 then c.id else c.id[..8];
            StableName(c) == (if purpose == "" then "Certificate" else purpose) + " (" + id + ")"
  {
  }

  // ---- From a name back to its certificate ----

  /** `resolveCertId` once the list is read: the first folder of that name, empty when there is none. */
  function Resolve(folders: seq<Folder>, name: string): string {
    if folders == [] then "" else if folders[0].name == name then folders[0].certId else Resolve(folders[1..], name)
  }

  method ResolveCertId(certs: seq<Certificate>, certFolder: string) returns (id: string)
    requires NoPlaceMarkers(certs)
    ensures id == Resolve(Folders(certs), certFolder)
  {
    var folders := BuildCertFolders(certs);
    for i := 0 to |folders|
      invariant Resolve(folders, certFolder) == Resolve(folders[i..], certFolder)
    {
      if folders[i].name == certFolder {
        return folders[i].certId;
      }
    }
    return "";
  }

  lemma {:induction false} ResolveAt(folders: seq<Folder>, i: nat)
    requires i < |folders| && NamesDistinct(folders)
    ensures Resolve(folders, folders[i].name) == folders[i].certId
  {
    if i > 0 {
      assert folders[0].name != folders[i].name;
      ResolveAt(folders[1..], i - 1);
    }
  }

  /** The folder listed for the `i`-th signing certificate leads back to that certificate's identifier. */
  lemma FolderLeadsBack(certs: seq<Certificate>, i: nat)
    requires i < |Folders(certs)|
    ensures |SigningIds(certs)| == |Folders(certs)|
    ensures Resolve(Folders(certs), Folders(certs)[i].name) == SigningIds(certs)[i]
  {
    FolderNamesDistinct(certs);
    OneFolderEach(certs);
    ResolveAt(Folders(certs), i);
    assert CertIds(Folders(certs))[i] == Folders(certs)[i].certId;
  }

  lemma {:induction false} ResolveUnlisted(folders: seq<Folder>, name: string)
    requires forall f <- folders :: f.name != name
    ensures Resolve(folders, name) == ""
  {
    if folders != [] {
      ResolveUnlisted(folders[1..], name);
    }
  }

  /** The certificate `info.txt` describes: the first of that identifier, and none for an empty one. */
  function Described(certs: seq<Certificate>, id: string): Option<Certificate> {
    if certs == [] || id == "" then None
    else if certs[0].id == id then Some(certs[0])
    else Described(certs[1..], id)
  }

  /** The certificate is the first of the list to carry its identifier. */
  ghost predicate FirstOfItsId(certs: seq<Certificate>, c: Certificate) {
    exists j :: 0 <= j < |certs| && certs[j] == c && forall l :: 0 <= l < j ==> certs[l].id != c.id
  }

  lemma {:induction false} DescribedFirst(certs: seq<Certificate>, c: Certificate)
    ensures Described(certs, c.id) == Some(c) <==> c.id != "" && FirstOfItsId(certs, c)
  {
    if certs != [] && c.id != "" {
      var rest := certs[1..];
      DescribedFirst(rest, c);
      if certs[0].id == c.id {
        assert FirstOfItsId(certs, c) <==> certs[0] == c;
      } else {
        if FirstOfItsId(rest, c) {
          var j :| 0 <= j < |rest| && rest[j] == c && forall l :: 0 <= l < j ==> rest[l].id != c.id;
          assert certs[j + 1] == c;
        }
        if FirstOfItsId(certs, c) {
          var j :| 0 <= j < |certs| && certs[j] == c && forall l :: 0 <= l < j ==> certs[l].id != c.id;
          assert rest[j - 1] == c && forall l :: 0 <= l < j - 1 ==> rest[l] == certs[l + 1];
        }
      }
    }
  }

  /** A listed folder describes the very certificate it was listed for exactly when that certificate has an
      identifier and is the first to carry it. */
  lemma FolderDescribesIff(certs: seq<Certificate>, i: nat, c: Certificate)
    requires i < |Folders(certs)| && Folders(certs)[i].certId == c.id
    ensures Described(certs, Resolve(Folders(certs), Folders(certs)[i].name)) == Some(c) <==>
              c.id != "" && FirstOfItsId(certs, c)
  {
    FolderNamesDistinct(certs);
    ResolveAt(Folders(certs), i);
    DescribedFirst(certs, c);
  }
}
