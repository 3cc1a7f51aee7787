/** The image gallery of both windows: loading the image folder's listing,
    the cursor moved by Next and Previous, and the "Image i / n" counter. */
module Gallery {
  import opened Wrappers
  import Text
  import Paths
  import Numerals
  import Cyclic

  /** `file.lower().endswith((".png", ".jpg", ".jpeg", ".bmp"))`. */
  predicate IsImageName(file: string) {
    var lower := Text.Lower(file);
    Text.EndsWith(lower, ".png") || Text.EndsWith(lower, ".jpg")
    || Text.EndsWith(lower, ".jpeg") || Text.EndsWith(lower, ".bmp")
  }

  /** The image names of a listing, in listing order. */
  function ImageNames(listing: seq<string>): seq<string> {
    if listing == [] then []
    else
      var last := listing[|listing| - 1];
      ImageNames(listing[..|listing| - 1]) + (if IsImageName(last) then [last] else [])
  }

  /** The gallery's list: each image name joined to the folder. */
  function ImagePaths(folder: string, listing: seq<string>): (r: seq<string>)
    ensures |r| == |ImageNames(listing)|
    ensures forall i :: 0 <= i < |r| ==> r[i] == Paths.Join(folder, ImageNames(listing)[i])
  {
    var names := ImageNames(listing);
    seq(|names|, i requires 0 <= i < |names| => Paths.Join(folder, names[i]))
  }

  /** The filter keeps exactly the listed names that look like images. */
  lemma {:induction false} ImageNamesExactly(listing: seq<string>, x: string)
    ensures x in ImageNames(listing) <==> x in listing && IsImageName(x)
  {
    if listing != [] {
      var init := listing[..|listing| - 1];
      ImageNamesExactly(init, x);
      assert listing == init + [listing[|listing| - 1]];
    }
  }

  /** The filter keeps listing order: it distributes over concatenation. */
  lemma {:induction false} ImageNamesAppend(a: seq<string>, b: seq<string>)
    ensures ImageNames(a + b) == ImageNames(a) + ImageNames(b)
    decreases |b|
  {
    if b == [] {
      assert a + b == a;
    } else {
      var init := b[..|b| - 1];
      assert (a + b)[..|a + b| - 1] == a + init;
      ImageNamesAppend(a, init);
    }
  }

  /** One more listed name adds its path to the gallery list exactly when it is an image. */
  lemma ImagePathsStep(folder: string, entries: seq<string>, i: nat)
    requires i < |entries|
    ensures ImagePaths(folder, entries[..i + 1])
         == ImagePaths(folder, entries[..i]) + (if IsImageName(entries[i]) then [Paths.Join(folder, entries[i])] else [])
  {
    assert entries[..i + 1][..i] == entries[..i];
    var names, more := ImageNames(entries[..i]), ImageNames(entries[..i + 1]);
    assert more == names + (if IsImageName(entries[i]) then [entries[i]] else []);
  }

  /** The counter label's text, "Image {index + 1} / {n}". */
  function CounterText(index: nat, n: nat): string {
    "Image " + Numerals.Decimal(index + 1) + " / " + Numerals.Decimal(n)
  }

  /** Different positions in one listing show different counters. */
  lemma CounterDistinct(i: nat, j: nat, n: nat)
    requires CounterText(i, n) == CounterText(j, n)
    ensures i == j
  {
    var a, b := Numerals.Decimal(i + 1), Numerals.Decimal(j + 1);
    var tail := " / " + Numerals.Decimal(n);
    assert CounterText(i, n) == "Image " + (a + tail);
    assert CounterText(j, n) == "Image " + (b + tail);
    assert a + tail == b + tail by {
      assert (a + tail) == CounterText(i, n)[6..];
      assert (b + tail) == CounterText(j, n)[6..];
    }
    assert |a| == |b|;
    assert a == (a + tail)[..|a|];
    assert b == (b + tail)[..|b|];
    Numerals.DecimalInjective(i + 1, j + 1);
  }

  /** The gallery state of a window: `current_images`, `current_image_index`
      and the text of the `image_counter` label. */
  class Navigator {
    var images: seq<string>
    var index: int
    var counter: string

    /** The cursor is on an image whenever there is one, and 0 otherwise. */
    ghost predicate Valid()
      reads this
    {
      if images == [] then index == 0 else 0 <= index < |images|
    }

    /** The window's initial `current_images = []`, `current_image_index = 0`. */
    constructor ()
      ensures Valid()
      ensures images == [] && index == 0 && counter == ""
    {
      images := [];
      index := 0;
      counter := "";
    }

    /** `display_current_image`: the counter is updated only when the current
        image decodes (`decodable` holds the paths whose pixmap is not null). */
    method DisplayCurrent(decodable: set<string>)
      requires Valid()
      modifies this`counter
      ensures Valid()
      ensures counter == if images != [] && images[index] in decodable
                         then CounterText(index, |images|) else old(counter)
    {
      if images != [] {
        var path := images[index];
        if path in decodable {
          counter := CounterText(index, |images|);
        }
      }
    }

    /** Loading the gallery page: reset the list and the cursor, keep the
        listed image names joined to the folder, then show the first image
        on a freshly created counter label. `listing` is `None` when
        `os.listdir` raised, which leaves the list empty. */
    method Load(folder: string, listing: Option<seq<string>>, decodable: set<string>)
      modifies this
      ensures Valid()
      ensures images == (if listing.Some? then ImagePaths(folder, listing.value) else [])
      ensures index == 0
      ensures images != [] ==> counter == (if images[0] in decodable then CounterText(0, |images|) else "")
      ensures images == [] ==> counter == old(counter)
    {
      images := [];
      index := 0;
      if listing.Some? {
        var entries := listing.value;
        for i := 0 to |entries|
          invariant images == ImagePaths(folder, entries[..i])
          invariant index == 0 && counter == old(counter)
        {
          ImagePathsStep(folder, entries, i);
          if IsImageName(entries[i]) {
            images := images + [Paths.Join(folder, entries[i])];
          }
        }
        assert entries[..|entries|] == entries;
      }
      if images != [] {
        counter := "";
        DisplayCurrent(decodable);
      }
    }

    /** `show_next_image`: on a non-empty list, one step forward with wrap-around. */
    method Next(decodable: set<string>)
      requires Valid()
      modifies this
      ensures Valid() && images == old(images)
      ensures index == if images == [] then old(index) else Cyclic.Succ(old(index), |images|)
      ensures counter == if images != [] && images[index] in decodable
                         then CounterText(index, |images|) else old(counter)
    {
      if images != [] {
        index := (index + 1) % |images|;
        DisplayCurrent(decodable);
      }
    }

    /** `show_prev_image`: on a non-empty list, one step back with wrap-around. */
    method Prev(decodable: set<string>)
      requires Valid()
      modifies this
      ensures Valid() && images == old(images)
      ensures index == if images == [] then old(index) else Cyclic.Pred(old(index), |images|)
      ensures counter == if images != [] && images[index] in decodable
                         then CounterText(index, |images|) else old(counter)
    {
      if images != [] {
        index := (index - 1) % |images|;
        DisplayCurrent(decodable);
      }
    }
  }
}
