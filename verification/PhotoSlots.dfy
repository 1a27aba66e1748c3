/** The photos of all widgets live in one store, each under its widget's own slot, and are asked for by a URL
    that carries the slot (CardPhotoStore, CardPhotoProvider::slotFromImageId). */
module PhotoSlots {
  import opened Wrappers
  import opened Decimal
  import opened Text

  const ULL_LIMIT: nat := 0x1_0000_0000_0000_0000

  /** The first index at or after `i` holding `c`, or the length. */
  function IndexFrom(s: string, c: char, i: nat): (k: nat)
    requires i <= |s|
    ensures i <= k <= |s| && (k < |s| ==> s[k] == c)
    ensures forall l :: i <= l < k ==> s[l] != c
    decreases |s| - i
  {
    if i == |s| || s[i] == c then i else IndexFrom(s, c, i + 1)
  }

  /** `QString::toULongLong`: an optional sign, digits, and no overflow. */
  function ToULongLong(s: string): Option<nat> {
    var t := Strip(s);
    var digits := if t != [] && t[0] == '+' then t[1..] else t;
    if digits == [] || !AllDigits(digits) || Number(digits) >= ULL_LIMIT then None else Some(Number(digits))
  }

  /** The slot an image id names; 0, which no widget has, for anything malformed. */
  function SlotFromImageId(id: string): nat {
    var slash := IndexFrom(id, '/', 0);
    if slash == |id| then 0
    else
      var end := IndexFrom(id, '?', slash + 1);
      match ToULongLong(id[slash + 1..end]) case Some(slot) => slot case None => 0
  }

  /** The id in a handler's photo URL. */
  function ImageId(slot: nat, token: nat): string {
    "cardphoto/" + Numeral(slot) + "?" + Numeral(token)
  }

  const PROVIDER := "image://librekde/"

  /** A handler's photo URL. */
  function PhotoUrl(slot: nat, token: nat): (url: string)
    ensures url != ""
  {
    PROVIDER + ImageId(slot, token)
  }

  /** A photo, with the card it was read from. */
  datatype Picture = Picture(image: nat, from: Option<nat>)

  function Stored(store: map<nat, Picture>, slot: nat): Option<Picture> {
    if slot in store then Some(store[slot]) else None
  }

  /** What a view is given for a URL: the provider sees what follows its own name. */
  function ImageAt(store: map<nat, Picture>, url: string): Option<Picture> {
    if PROVIDER <= url then Stored(store, SlotFromImageId(url[|PROVIDER|..])) else None
  }

  lemma DigitsUnpadded(s: string)
    requires AllDigits(s)
    ensures Strip(s) == s
  {
    if s != [] {
      assert IsDigit(s[0]) && IsDigit(s[|s| - 1]);
    }
    Unpadded(s);
  }

  lemma NumeralParses(n: nat)
    ensures ToULongLong(Numeral(n)) == if n < ULL_LIMIT then Some(n) else None
  {
    DigitsUnpadded(Numeral(n));
    NumeralNumber(n);
    assert Numeral(n)[0] in Numeral(n);
  }

  /** The provider reads back the slot the handler wrote, for every slot the counter can reach. */
  lemma SlotRoundTrip(slot: nat, token: nat)
    requires slot < ULL_LIMIT
    ensures SlotFromImageId(ImageId(slot, token)) == slot
  {
    var head, number, tail := "cardphoto/", Numeral(slot), "?" + Numeral(token);
    var id := ImageId(slot, token);
    assert id == head + number + tail;
    assert id[9] == '/' && forall k :: 0 <= k < 9 ==> id[k] == head[k] && head[k] != '/';
    assert forall k :: 10 <= k < 10 + |number| ==> id[k] == number[k - 10] && id[k] in number && IsDigit(id[k]);
    assert id[10 + |number|] == tail[0] == '?';
    assert id[10..10 + |number|] == number;
    NumeralParses(slot);
  }

  lemma UrlRoundTrip(store: map<nat, Picture>, slot: nat, token: nat)
    requires slot < ULL_LIMIT
    ensures ImageAt(store, PhotoUrl(slot, token)) == Stored(store, slot)
  {
    SlotRoundTrip(slot, token);
    assert PhotoUrl(slot, token)[|PROVIDER|..] == ImageId(slot, token);
  }

  lemma UrlSpelled(slot: nat, token: nat)
    ensures PhotoUrl(slot, token) == "image://librekde/cardphoto/" + Numeral(slot) + "?" + Numeral(token)
  {
    var tail := Numeral(slot) + "?" + Numeral(token);
    assert PROVIDER + "cardphoto/" == "image://librekde/cardphoto/";
    assert ImageId(slot, token) == "cardphoto/" + tail;
    assert PROVIDER + ("cardphoto/" + tail) == PROVIDER + "cardphoto/" + tail;
  }

  /** A new token makes a new URL, so that a view asks again. */
  lemma UrlsDiffer(slot: nat, a: nat, b: nat)
    requires a != b
    ensures PhotoUrl(slot, a) != PhotoUrl(slot, b)
  {
    var head := PROVIDER + "cardphoto/" + Numeral(slot) + "?";
    assert PhotoUrl(slot, a) == head + Numeral(a) && PhotoUrl(slot, b) == head + Numeral(b);
    NumeralNumber(a);
    NumeralNumber(b);
    assert (head + Numeral(a))[|head|..] == Numeral(a) && (head + Numeral(b))[|head|..] == Numeral(b);
  }

  /** An id without a slash, or with anything but digits for a slot, names the slot no widget has. */
  lemma MalformedIsNobody(head: string, part: string, tail: string)
    requires '/' !in head && '?' !in part && (tail == [] || tail[0] == '?')
    requires part == [] || exists c <- part :: !IsDigit(c) && !IsSpace(c) && c != '+'
    ensures SlotFromImageId(head) == 0 && SlotFromImageId(head + "/" + part + tail) == 0
  {
    var id := head + "/" + part + tail;
    var n := |head|;
    assert id[n] == '/' && forall k :: 0 <= k < n ==> id[k] == head[k];
    assert IndexFrom(id, '/', 0) == n;
    assert forall k :: 0 <= k < |part| ==> id[n + 1 + k] == part[k];
    assert id[n + 1..n + 1 + |part|] == part;
    assert IndexFrom(id, '?', n + 1) == n + 1 + |part|;
    NotANumber(part);
  }

  lemma NotANumber(part: string)
    requires part == [] || exists c <- part :: !IsDigit(c) && !IsSpace(c) && c != '+'
    ensures ToULongLong(part).None?
  {
    if part != [] {
      var c :| c in part && !IsDigit(c) && !IsSpace(c) && c != '+';
      StripIs(part);
      var a, b :| Blank(a) && Blank(b) && part == a + Strip(part) + b;
      assert c in Strip(part);
      var t := Strip(part);
      if t[0] == '+' {
        assert t == [t[0]] + t[1..] && c in t[1..];
      }
    }
  }

  // ---- The store ----

  /** `CardPhotoStore`: each call is one atomic step. There is no null among the images stored. */
  class PhotoStore {
    var images: map<nat, Picture>

    constructor ()
      ensures images == map[]
    {
      images := map[];
    }

    method SetImage(slot: nat, image: Picture)
      modifies this
      ensures images == old(images)[slot := image]
    {
      images := images[slot := image];
    }

    method Clear(slot: nat)
      modifies this
      ensures images == old(images) - {slot}
    {
      images := images - {slot};
    }

    /** What a widget's view is given for the URL of any widget: the photo under that widget's slot. */
    method RequestImage(id: string) returns (image: Option<Picture>)
      ensures forall slot: nat, token: nat :: slot < ULL_LIMIT && id == ImageId(slot, token) ==>
                image == Stored(images, slot)
      ensures image == ImageAt(images, PROVIDER + id)
    {
      var slot := SlotFromImageId(id);
      forall s: nat, token: nat | s < ULL_LIMIT && id == ImageId(s, token)
        ensures slot == s
      {
        SlotRoundTrip(s, token);
      }
      assert (PROVIDER + id)[|PROVIDER|..] == id;
      return if slot in images then Some(images[slot]) else None;
    }
  }
}
