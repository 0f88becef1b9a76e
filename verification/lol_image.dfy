/** The geometry of composing the final image (LOLImage.swift): the
    aspect-fill crop of the captured frame, the fixed output size and the
    caption rectangles. Coordinates are exact reals; rendering, fonts and
    encoding are not modelled, and the rendered size of a caption is a
    parameter. */
module LOLImage {
  import opened Optional

  datatype Size = Size(width: real, height: real)

  datatype Rect = Rect(x: real, y: real, width: real, height: real)

  /** Horizontal margin on each side of the captions. */
  const MarginSize: real := 10.0

  /** The size every rendered image has. */
  const DesiredFinalWidth: real := 640.0
  const DesiredFinalHeight: real := 480.0
  const DesiredFinalSize: Size := Size(DesiredFinalWidth, DesiredFinalHeight)

  predicate IsPositive(s: Size) {
    s.width > 0.0 && s.height > 0.0
  }

  /** `inner` lies within an image of size `outer`. */
  predicate Inside(inner: Rect, outer: Size) {
    0.0 <= inner.x && inner.x + inner.width <= outer.width
    && 0.0 <= inner.y && inner.y + inner.height <= outer.height
  }

  /** The image is wider, relative to its height, than the target: the
      width ratio is the smaller. Stated by cross-multiplication, which for
      positive sizes agrees with comparing `target / image` per axis. */
  predicate WiderThanTarget(img: Size, target: Size) {
    target.width * img.height < target.height * img.width
  }

  predicate TallerThanTarget(img: Size, target: Size) {
    target.width * img.height > target.height * img.width
  }

  lemma RatioComparison(img: Size, target: Size)
    requires IsPositive(img) && IsPositive(target)
    ensures target.width / img.width < target.height / img.height <==> WiderThanTarget(img, target)
    ensures target.width / img.width > target.height / img.height <==> TallerThanTarget(img, target)
  {
    var wr := target.width / img.width;
    var hr := target.height / img.height;
    assert wr * img.width == target.width;
    assert hr * img.height == target.height;
    assert wr * img.width * img.height == target.width * img.height;
    assert hr * img.width * img.height == target.height * img.width;
    if wr < hr {
      assert wr * (img.width * img.height) < hr * (img.width * img.height);
    }
    if wr > hr {
      assert wr * (img.width * img.height) > hr * (img.width * img.height);
    }
    if WiderThanTarget(img, target) {
      assert wr * (img.width * img.height) < hr * (img.width * img.height);
    }
    if TallerThanTarget(img, target) {
      assert wr * (img.width * img.height) > hr * (img.width * img.height);
    }
  }

  /** The size of the region cut out of the frame before it is stretched to
      the target: three quarters of the width when the frame is relatively
      wide, a height of three quarters of the width when it is relatively
      tall, and the whole frame when the ratios agree. */
  function CroppingSize(img: Size, target: Size): (r: Size)
    requires IsPositive(img) && IsPositive(target)
    ensures IsPositive(r)
    ensures WiderThanTarget(img, target) ==> r.height == img.height && 4.0 * r.width == 3.0 * img.width
    ensures TallerThanTarget(img, target) ==> r.width == img.width && 4.0 * r.height == 3.0 * r.width
    ensures !WiderThanTarget(img, target) && !TallerThanTarget(img, target) ==> r == img
  {
    var widthRatio := target.width / img.width;
    var heightRatio := target.height / img.height;
    RatioComparison(img, target);
    if widthRatio < heightRatio then Size(img.width / 4.0 * 3.0, img.height)
    else if widthRatio > heightRatio then Size(img.width, img.width / 4.0 * 3.0)
    else Size(img.width, img.height)
  }

  /** The cropping rectangle: the cropping size, centred in the frame. */
  function CroppingRect(img: Size, target: Size): (r: Rect)
    requires IsPositive(img) && IsPositive(target)
    ensures Size(r.width, r.height) == CroppingSize(img, target)
    ensures r.x == img.width - (r.x + r.width)
    ensures r.y == img.height - (r.y + r.height)
    ensures WiderThanTarget(img, target) ==> 0.0 < r.x && r.x + r.width < img.width && r.y == 0.0
    ensures !WiderThanTarget(img, target) && !TallerThanTarget(img, target) ==> r == Rect(0.0, 0.0, img.width, img.height)
  {
    var crop := CroppingSize(img, target);
    Rect((img.width - crop.width) / 2.0, (img.height - crop.height) / 2.0, crop.width, crop.height)
  }

  /** For the fixed 640x480 target the cropping rectangle always lies inside
      the frame, and strictly inside it along the axis that is cropped. */
  lemma FixedTargetCropInside(img: Size)
    requires IsPositive(img)
    ensures Inside(CroppingRect(img, DesiredFinalSize), img)
    ensures TallerThanTarget(img, DesiredFinalSize) ==>
      0.0 < CroppingRect(img, DesiredFinalSize).y && CroppingRect(img, DesiredFinalSize).x == 0.0
  {
  }

  /** More generally, the crop lies inside the frame for every target no
      wider than 4:3: a tall frame is then less than 4:3 itself, so three
      quarters of its width is less than its height. */
  lemma {:induction false} NarrowTargetCropInside(img: Size, target: Size)
    requires IsPositive(img) && IsPositive(target)
    requires 3.0 * target.width <= 4.0 * target.height
    ensures Inside(CroppingRect(img, target), img)
  {
    if TallerThanTarget(img, target) {
      ScaleWeak(3.0 * target.width, 4.0 * target.height, img.height);
      assert 3.0 * target.height * img.width < 4.0 * target.height * img.height;
      assert (3.0 * img.width) * target.height < (4.0 * img.height) * target.height;
      if 3.0 * img.width >= 4.0 * img.height {
        ScaleWeak(4.0 * img.height, 3.0 * img.width, target.height);
        assert false;
      }
      assert CroppingSize(img, target).height < img.height;
    }
  }

  /** With another target shape the tall-frame branch can cut outside the
      frame: a 100x50 frame and a 400x100 target give a crop 75 high, so the
      rectangle starts below the frame's bottom edge. */
  lemma OtherTargetMayCropOutside()
    ensures TallerThanTarget(Size(100.0, 50.0), Size(400.0, 100.0))
    ensures CroppingRect(Size(100.0, 50.0), Size(400.0, 100.0)) == Rect(0.0, -12.5, 100.0, 75.0)
    ensures !Inside(CroppingRect(Size(100.0, 50.0), Size(400.0, 100.0)), Size(100.0, 50.0))
  {
  }

  /** The wide-frame crop keeps the full height and three quarters of the
      width, so it has the 4:3 shape only for a 16:9 frame. */
  lemma WideCropAspect(img: Size, target: Size)
    requires IsPositive(img) && IsPositive(target) && WiderThanTarget(img, target)
    ensures 3.0 * CroppingSize(img, target).width == 4.0 * CroppingSize(img, target).height <==> 9.0 * img.width == 16.0 * img.height
  {
  }

  /** The width available to a caption between the two margins. */
  function AvailableWidth(canvas: Size): (w: real)
    ensures w + 2.0 * MarginSize == canvas.width
  {
    canvas.width - MarginSize * 2.0
  }

  /** The smallest integer not below `x`. */
  function Ceil(x: real): (n: int)
    ensures n as real >= x
    ensures (n - 1) as real < x
  {
    -((-x).Floor)
  }

  lemma ScaleStrict(a: real, b: real, c: real)
    requires a < b && c > 0.0
    ensures a * c < b * c
  {
  }

  lemma ScaleWeak(a: real, b: real, c: real)
    requires a <= b && c > 0.0
    ensures a * c <= b * c
  {
  }

  /** The top caption's box: between the margins, the full height. */
  function TopRect(canvas: Size): (r: Rect)
    ensures r.x == MarginSize && r.x + r.width == canvas.width - MarginSize
    ensures r.y == 0.0 && r.height == canvas.height
  {
    Rect(MarginSize, 0.0, AvailableWidth(canvas), canvas.height)
  }

  /** How many lines a caption of the given rendered width wraps to. */
  function NeededLines(textWidth: real, availableWidth: real): (n: int)
    requires availableWidth > 0.0
    ensures n as real * availableWidth >= textWidth
    ensures (n - 1) as real * availableWidth < textWidth
  {
    var q := textWidth / availableWidth;
    var n := Ceil(q);
    assert q * availableWidth == textWidth;
    var below: real := (n - 1) as real;
    ScaleStrict(below, q, availableWidth);
    assert below * availableWidth < textWidth;
    ScaleWeak(q, n as real, availableWidth);
    n
  }

  /** The bottom caption's box: between the margins, from the bottom edge up
      as many line heights as the caption needs lines. */
  function BottomRect(canvas: Size, text: Size): (r: Rect)
    requires AvailableWidth(canvas) > 0.0
    ensures r.x == MarginSize && r.x + r.width == canvas.width - MarginSize
    ensures r.y == 0.0
    ensures r.height == text.height * NeededLines(text.width, r.width) as real
  {
    var available := AvailableWidth(canvas);
    Rect(MarginSize, 0.0, available, text.height * NeededLines(text.width, available) as real)
  }

  /** Everything the renderer is told about one image. */
  datatype Layout = Layout(crop: Rect, canvas: Size, top: Option<Rect>, bottom: Option<Rect>)

  /** The layout of the final image for a frame of size `img`: crop for the
      fixed target, a canvas of the fixed size whatever the frame's size, and
      a box for each caption that is present. `measure` gives a caption's
      rendered size in the bottom font. */
  function ComposeLayout(img: Size, topMessage: Option<string>, bottomMessage: Option<string>,
                         measure: string -> Size): (r: Layout)
    requires IsPositive(img)
    ensures r.canvas == Size(640.0, 480.0)
    ensures r.crop == CroppingRect(img, DesiredFinalSize)
    ensures Inside(r.crop, img)
    ensures r.top.Some? <==> topMessage.Some?
    ensures r.bottom.Some? <==> bottomMessage.Some?
    ensures r.top.Some? ==> r.top.value == Rect(10.0, 0.0, 620.0, 480.0)
    ensures r.bottom.Some? ==> r.bottom.value == BottomRect(r.canvas, measure(bottomMessage.value))
    ensures r.bottom.Some? ==> (r.bottom.value.x == 10.0 && r.bottom.value.y == 0.0 && r.bottom.value.width == 620.0
      && r.bottom.value.height == measure(bottomMessage.value).height * NeededLines(measure(bottomMessage.value).width, 620.0) as real)
  {
    FixedTargetCropInside(img);
    var canvas := DesiredFinalSize;
    Layout(
      CroppingRect(img, DesiredFinalSize),
      canvas,
      if topMessage.Some? then Some(TopRect(canvas)) else None,
      if bottomMessage.Some? then Some(BottomRect(canvas, measure(bottomMessage.value))) else None)
  }
}
