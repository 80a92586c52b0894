/** The image carousel: the list of images is rendered twice in a row, and
    a CSS animation slides the strip left by half its width, over and over,
    so that the second copy takes the place of the first. Each rendered
    image carries a 1-based label in its alt text. */
module ImageAutoSlider {
  import opened Text

  /** One rendered `<div key={index}><img src alt/></div>` of the strip. */
  datatype Slide<T> = Slide(key: nat, src: T, alt: string)

  /** The component's default `images` prop: eight bundled pictures. */
  const DefaultImages: seq<string> := [
    "carouselimg1.jpg", "carouselimg2.jpg", "carouselimg3.jpg", "carouselimg4.jpg",
    "carouselimg5.jpg", "carouselimg6.jpeg", "carouselimg7.jpeg", "carouselimg8.jpg"
  ]

  /** `[...images, ...images]`: the list followed by a second copy of it. */
  function Duplicate<T>(images: seq<T>): (r: seq<T>)
    ensures |r| == 2 * |images|
    ensures forall i :: 0 <= i < |images| ==> r[i] == images[i] && r[i + |images|] == images[i]
  {
    images + images
  }

  /** `(index % images.length) + 1` for an index of the doubled list: the
      position, counted from 1, of the image in the original list. */
  function LabelNumber(index: nat, n: nat): (k: nat)
    requires index < 2 * n
    ensures 1 <= k <= n
    ensures k == if index < n then index + 1 else index - n + 1
  {
    ModWithinTwoCopies(index, n);
    index % n + 1
  }

  /** Euclidean remainder of an index of the doubled list. */
  lemma ModWithinTwoCopies(a: nat, n: nat)
    requires a < 2 * n
    ensures a % n == if a < n then a else a - n
  {
    if a < n {
      assert a == 0 * n + a;
    } else {
      assert a == 1 * n + (a - n);
    }
  }

  const AltPrefix: string := "Gallery image "

  /** The `alt` template `Gallery image ${k}`: the fixed prefix followed by
      a decimal rendering that reads back as k. */
  function AltText(k: nat): (a: string)
    ensures |a| > |AltPrefix| && a[..|AltPrefix|] == AltPrefix
    ensures var d := a[|AltPrefix|..];
      (forall i :: 0 <= i < |d| ==> IsDigit(d[i])) && ParseDecimal(d) == k
  {
    var a := AltPrefix + NatToString(k);
    assert a[|AltPrefix|..] == NatToString(k);
    ParseNatToString(k);
    a
  }

  /** `duplicatedImages.map((image, index) => ...)`: every slide of the strip. */
  function Render<T>(images: seq<T>): (r: seq<Slide<T>>)
    ensures |r| == 2 * |images|
    ensures forall i :: 0 <= i < |r| ==> r[i].key == i
    ensures forall i :: 0 <= i < |images| ==>
      r[i].src == images[i] && r[i].alt == AltText(i + 1)
    ensures forall i :: 0 <= i < |images| ==>
      r[i + |images|].src == r[i].src && r[i + |images|].alt == r[i].alt
  {
    var d := Duplicate(images);
    seq(|d|, i requires 0 <= i < |d| => Slide(i, d[i], AltText(LabelNumber(i, |images|))))
  }

  /** What a viewer sees of each slide: its picture and its alt text. Only
      a projection, used to state the seam. */
  function Shown<T>(r: seq<Slide<T>>): seq<(T, string)> {
    seq(|r|, i requires 0 <= i < |r| => (r[i].src, r[i].alt))
  }

  /** Every label names one of the n images: "Gallery image k" with
      1 <= k <= n, for every slide of both copies. */
  lemma LabelsInRange<T>(images: seq<T>, i: nat)
    requires i < |Render(images)|
    ensures exists k :: 1 <= k <= |images| && Render(images)[i].alt == AltText(k)
  {
    var n := |images|;
    var k := if i < n then i + 1 else i - n + 1;
    assert Render(images)[i].alt == AltText(k);
  }

  /** Within one copy, distinct positions carry distinct labels, even when
      the list repeats an image. */
  lemma LabelsDistinct<T>(images: seq<T>, i: nat, j: nat)
    requires i < j < |images|
    ensures Render(images)[i].alt != Render(images)[j].alt
  {
    var r := Render(images);
    assert r[i].alt == AltText(i + 1) && r[j].alt == AltText(j + 1);
  }

  /** The seam: the second half of the strip shows exactly what the first
      half shows, so sliding the strip by n slides gives back the view it
      started from. */
  lemma HalfShiftSeamless<T>(images: seq<T>)
    ensures var v := Shown(Render(images)); var n := |images|;
      v[n..] == v[..n] && v[n..] + v[..n] == v
  {
    var v := Shown(Render(images));
    var n := |images|;
    assert v[n..] == v[..n] by {
      forall i | 0 <= i < n
        ensures v[n..][i] == v[..n][i]
      {
        assert v[n..][i] == v[i + n];
      }
    }
    assert v[..n] + v[n..] == v;
  }

  /** With the default images the strip holds sixteen slides, the last
      labelled "Gallery image 8". */
  lemma DefaultStrip()
    ensures |Render(DefaultImages)| == 16
    ensures Render(DefaultImages)[15].src == "carouselimg8.jpg"
    ensures Render(DefaultImages)[15].alt == "Gallery image 8"
  {
    var r := Render(DefaultImages);
    assert r[7 + 8].src == r[7].src;
  }

  // ---------------------------------------------------------------------
  // Horizontal layout of the strip (`flex gap-6 w-max`, each slide w wide,
  // gaps g between neighbours) and the `translateX(-50%)` end position of
  // the `scroll-right` animation. Lengths are in CSS pixels.

  /** Left edge of slide i. */
  function SlideLeft(i: nat, w: nat, g: nat): nat {
    i * (w + g)
  }

  /** Width of a strip of m > 0 slides with gaps between neighbours only,
      as `gap` lays it out. */
  function GapStripWidth(m: nat, w: nat, g: nat): nat
    requires m > 0
  {
    m * w + (m - 1) * g
  }

  /** As written: the animation ends shifted left by half the strip's width,
      and at that point slide n sits g/2 to the right of where slide 0 was
      at the start, so the restart jumps by half a gap. */
  lemma GapShiftMisaligned(n: nat, w: nat, g: nat)
    requires n > 0 && g > 0
    ensures SlideLeft(n, w, g) as real - GapStripWidth(2 * n, w, g) as real / 2.0 == g as real / 2.0
  {
    assert SlideLeft(n, w, g) == n * w + n * g;
    assert GapStripWidth(2 * n, w, g) == 2 * (n * w) + 2 * (n * g) - g;
  }

  /** Width of a strip of m slides each followed by its own gap (a trailing
      margin or an end padding of g instead of `gap`). */
  function TrailingGapStripWidth(m: nat, w: nat, g: nat): nat {
    SlideLeft(m, w, g)
  }

  /** Corrected: with the gap counted after every slide, half the strip's
      width is exactly the distance from slide 0 to slide n, so after the
      shift slide i + n stands where slide i stood, for every i < n. */
  lemma TrailingGapShiftAligned(n: nat, w: nat, g: nat, i: nat)
    requires i < n
    ensures TrailingGapStripWidth(2 * n, w, g) % 2 == 0
    ensures SlideLeft(i + n, w, g) - TrailingGapStripWidth(2 * n, w, g) / 2 == SlideLeft(i, w, g)
  {
    assert TrailingGapStripWidth(2 * n, w, g) == 2 * (n * (w + g));
    assert SlideLeft(i + n, w, g) == i * (w + g) + n * (w + g);
  }
}
