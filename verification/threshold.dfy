/** Per-pixel threshold masks of code/perception.py.

    Images are row-major `seq<seq<_>>`. The colour-space conversions the
    source delegates to OpenCV (grey level, HSV saturation) are not modelled:
    their per-pixel results come in as inputs.
 */
module Threshold {

  /** One pixel of a three-channel image. */
  datatype Rgb = Rgb(r: int, g: int, b: int)

  const Black: Rgb := Rgb(0, 0, 0)
  /** A set pixel of a three-channel binary mask. */
  const Marked: Rgb := Rgb(1, 1, 1)

  const DefaultRgbThreshold: Rgb := Rgb(160, 160, 160)
  const DefaultBwThreshold: int := 150
  const RockBwThreshold: int := 90
  const RockSaturationThreshold: int := 100
  const DefaultRowsToCut: int := 60

  /** Two images with the same number of rows and the same row lengths. */
  predicate SameShape<A, B>(a: seq<seq<A>>, b: seq<seq<B>>)
  {
    |a| == |b| && forall i :: 0 <= i < |a| ==> |a[i]| == |b[i]|
  }

  /** A single-channel image holding only 0 and 1. */
  predicate Binary(m: seq<seq<int>>)
  {
    forall i, j :: 0 <= i < |m| && 0 <= j < |m[i]| ==> m[i][j] == 0 || m[i][j] == 1
  }

  predicate AboveAll(p: Rgb, t: Rgb)
  {
    p.r > t.r && p.g > t.g && p.b > t.b
  }

  /** `color_thresh`: 1 where all three channels are strictly above their
      thresholds, 0 elsewhere. */
  function ColorThresh(img: seq<seq<Rgb>>, t: Rgb): (mask: seq<seq<int>>)
    ensures SameShape(mask, img)
    ensures Binary(mask)
    ensures forall i, j :: 0 <= i < |img| && 0 <= j < |img[i]| ==>
              (mask[i][j] == 1 <==> AboveAll(img[i][j], t))
  {
    seq(|img|, i requires 0 <= i < |img| =>
      seq(|img[i]|, j requires 0 <= j < |img[i]| => if AboveAll(img[i][j], t) then 1 else 0))
  }

  /** `bw_thresh` on the grey levels of an image: every channel is 1 where the
      grey level reaches the threshold and 0 elsewhere. */
  function BwThresh(gray: seq<seq<int>>, t: int): (out: seq<seq<Rgb>>)
    ensures SameShape(out, gray)
    ensures forall i, j :: 0 <= i < |gray| && 0 <= j < |gray[i]| ==>
              (out[i][j] == Marked <==> gray[i][j] >= t) && (out[i][j] == Black <==> gray[i][j] < t)
  {
    seq(|gray|, i requires 0 <= i < |gray| =>
      seq(|gray[i]|, j requires 0 <= j < |gray[i]| => if gray[i][j] >= t then Marked else Black))
  }

  /** `rock_thresh`. Pixels whose grey level is below 90 are blacked out, then a
      pixel is a rock where its saturation exceeds 100. `saturation` stands for
      the saturation channel of OpenCV's HSV conversion, which is 0 on black. */
  function RockThresh(img: seq<seq<Rgb>>, gray: seq<seq<int>>, saturation: Rgb -> int): (out: seq<seq<Rgb>>)
    requires SameShape(img, gray)
    requires saturation(Black) == 0
    ensures SameShape(out, img)
    ensures forall i, j :: 0 <= i < |img| && 0 <= j < |img[i]| ==>
              && (out[i][j] == Marked || out[i][j] == Black)
              && (out[i][j] == Marked <==>
                    gray[i][j] >= RockBwThreshold && saturation(img[i][j]) > RockSaturationThreshold)
  {
    var bw := BwThresh(gray, RockBwThreshold);
    seq(|img|, i requires 0 <= i < |img| =>
      seq(|img[i]|, j requires 0 <= j < |img[i]| =>
        var kept := if bw[i][j] == Black then Black else img[i][j];
        if saturation(kept) > RockSaturationThreshold then Marked else Black))
  }

  /** Python's slice end `[:k]` on a sequence of length `n`. */
  function SliceStop(k: int, n: nat): (stop: nat)
    ensures stop <= n
    ensures 0 <= k <= n ==> stop == k
    ensures k > n ==> stop == n
    ensures k < 0 ==> stop as int == if n + k >= 0 then n + k else 0
  {
    if k >= 0 then (if k <= n then k else n)
    else if n + k >= 0 then n + k else 0
  }

  /** `cut_top_of_colored_image`: a copy with the first `rowsToCut` rows black. */
  function CutTop(img: seq<seq<Rgb>>, rowsToCut: int): (out: seq<seq<Rgb>>)
    ensures SameShape(out, img)
    ensures forall i, j :: 0 <= i < |img| && 0 <= j < |img[i]| ==>
              out[i][j] == if i < SliceStop(rowsToCut, |img|) then Black else img[i][j]
  {
    var stop := SliceStop(rowsToCut, |img|);
    seq(|img|, i requires 0 <= i < |img| =>
      if i < stop then seq(|img[i]|, j => Black) else img[i])
  }

  /** The red channel `img[:,:,0]`, which is the whole mask for the binary
      three-channel images above. */
  function Channel0(img: seq<seq<Rgb>>): (m: seq<seq<int>>)
    ensures SameShape(m, img)
    ensures forall i, j :: 0 <= i < |img| && 0 <= j < |img[i]| ==> m[i][j] == img[i][j].r
  {
    seq(|img|, i requires 0 <= i < |img| => seq(|img[i]|, j requires 0 <= j < |img[i]| => img[i][j].r))
  }

  /** The obstacle mask: 0 where the navigable mask is set, 1 elsewhere. */
  function Invert(m: seq<seq<int>>): (out: seq<seq<int>>)
    ensures SameShape(out, m)
    ensures Binary(out)
    ensures forall i, j :: 0 <= i < |m| && 0 <= j < |m[i]| ==> (out[i][j] == 1 <==> m[i][j] <= 0)
  {
    seq(|m|, i requires 0 <= i < |m| =>
      seq(|m[i]|, j requires 0 <= j < |m[i]| => if m[i][j] > 0 then 0 else 1))
  }

  /** Inverting a binary mask twice gives it back. */
  lemma InvertInvolution(m: seq<seq<int>>)
    requires Binary(m)
    ensures Invert(Invert(m)) == m
  {
    var twice := Invert(Invert(m));
    forall i | 0 <= i < |m| ensures twice[i] == m[i] {
      assert |twice[i]| == |m[i]|;
      forall j | 0 <= j < |m[i]| ensures twice[i][j] == m[i][j] {
      }
    }
  }

  /** The grey mask seen through its red channel is exactly the thresholded
      grey level. */
  lemma BwThreshChannel0(gray: seq<seq<int>>, t: int)
    ensures Binary(Channel0(BwThresh(gray, t)))
    ensures forall i, j :: 0 <= i < |gray| && 0 <= j < |gray[i]| ==>
              (Channel0(BwThresh(gray, t))[i][j] == 1 <==> gray[i][j] >= t)
  {
  }

  /** A rock pixel always passes the rock brightness threshold: the dark
      pixels blacked out first can never be rocks. */
  lemma RocksAreBright(img: seq<seq<Rgb>>, gray: seq<seq<int>>, saturation: Rgb -> int)
    requires SameShape(img, gray)
    requires saturation(Black) == 0
    ensures var rocks := RockThresh(img, gray, saturation);
      forall i, j :: 0 <= i < |img| && 0 <= j < |img[i]| && rocks[i][j] == Marked ==>
        BwThresh(gray, RockBwThreshold)[i][j] == Marked
  {
  }

  /** A per-pixel colour conversion applied to a whole image; OpenCV's grey
      conversion is one. */
  function GrayImage(img: seq<seq<Rgb>>, grayOf: Rgb -> int): (gray: seq<seq<int>>)
    ensures SameShape(gray, img)
    ensures forall i, j :: 0 <= i < |img| && 0 <= j < |img[i]| ==> gray[i][j] == grayOf(img[i][j])
  {
    seq(|img|, i requires 0 <= i < |img| => seq(|img[i]|, j requires 0 <= j < |img[i]| => grayOf(img[i][j])))
  }

  /** The navigable mask before rectification: the sky band cut, then the
      grey threshold (the start of `get_navigible_terrain_world_coordinates`). */
  function NavigableMask(img: seq<seq<Rgb>>, grayOf: Rgb -> int): (nav: seq<seq<int>>)
    ensures SameShape(nav, img) && Binary(nav)
    ensures forall i, j :: 0 <= i < |img| && 0 <= j < |img[i]| ==>
              (nav[i][j] == 1 <==>
                 if i < SliceStop(DefaultRowsToCut, |img|) then grayOf(Black) >= DefaultBwThreshold
                 else grayOf(img[i][j]) >= DefaultBwThreshold)
  {
    Channel0(BwThresh(GrayImage(CutTop(img, DefaultRowsToCut), grayOf), DefaultBwThreshold))
  }

  /** The obstacle mask before rectification: the complement of the grey
      threshold of the uncut image (the start of `get_obstacle_world_coordinates`). */
  function ObstacleMask(img: seq<seq<Rgb>>, grayOf: Rgb -> int): (obs: seq<seq<int>>)
    ensures SameShape(obs, img) && Binary(obs)
    ensures forall i, j :: 0 <= i < |img| && 0 <= j < |img[i]| ==>
              (obs[i][j] == 1 <==> grayOf(img[i][j]) < DefaultBwThreshold)
  {
    Invert(Channel0(BwThresh(GrayImage(img, grayOf), DefaultBwThreshold)))
  }

  /** The rock mask before rectification: `rock_thresh` of the cut image (the
      start of `get_rock_world_coordinates`). */
  function RockMask(img: seq<seq<Rgb>>, grayOf: Rgb -> int, saturation: Rgb -> int): (rock: seq<seq<int>>)
    requires saturation(Black) == 0
    ensures SameShape(rock, img) && Binary(rock)
    ensures forall i, j :: 0 <= i < |img| && 0 <= j < |img[i]| ==>
              (rock[i][j] == 1 <==>
                 && i >= SliceStop(DefaultRowsToCut, |img|)
                 && grayOf(img[i][j]) >= RockBwThreshold
                 && saturation(img[i][j]) > RockSaturationThreshold)
  {
    var cut := CutTop(img, DefaultRowsToCut);
    Channel0(RockThresh(cut, GrayImage(cut, grayOf), saturation))
  }

  /** The sky band is never navigable and never a rock, as long as black is
      dark; below it a pixel is navigable exactly when its grey level reaches
      150. */
  lemma SkyIsCut(img: seq<seq<Rgb>>, grayOf: Rgb -> int, saturation: Rgb -> int)
    requires grayOf(Black) < RockBwThreshold && saturation(Black) == 0
    ensures var nav := NavigableMask(img, grayOf);
      && SameShape(nav, img)
      && forall i, j :: 0 <= i < |img| && 0 <= j < |img[i]| ==>
           (nav[i][j] == 1 <==> i >= SliceStop(DefaultRowsToCut, |img|) && grayOf(img[i][j]) >= DefaultBwThreshold)
    ensures var rock := RockMask(img, grayOf, saturation);
      && SameShape(rock, img)
      && forall i, j :: 0 <= i < |img| && 0 <= j < |img[i]| && i < SliceStop(DefaultRowsToCut, |img|) ==>
           rock[i][j] == 0
  {
  }

  /** Before rectification, the obstacle mask is exactly the pixels whose grey
      level stays below 150: obstacles and unclipped navigable terrain
      partition the image. */
  lemma ObstacleIsComplement(img: seq<seq<Rgb>>, grayOf: Rgb -> int)
    ensures var obs := ObstacleMask(img, grayOf);
      && SameShape(obs, img) && Binary(obs)
      && forall i, j :: 0 <= i < |img| && 0 <= j < |img[i]| ==>
           (obs[i][j] == 1 <==> grayOf(img[i][j]) < DefaultBwThreshold)
  {
  }
}
