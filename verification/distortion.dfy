/** `should_distort_images`: whether any image distortion is switched on. */
module Distortion {

  /** True when flipping is on or any of crop, scale and brightness is nonzero. */
  function ShouldDistortImages(flipLeftRight: bool, randomCrop: real, randomScale: real,
                               randomBrightness: real): (r: bool)
    ensures !r <==> !flipLeftRight && randomCrop == 0.0 && randomScale == 0.0 && randomBrightness == 0.0
  {
    flipLeftRight || randomCrop != 0.0 || randomScale != 0.0 || randomBrightness != 0.0
  }

  /** The settings that switch every distortion off: no flip, and zero crop,
      scale and brightness. */
  datatype Settings = Settings(flipLeftRight: bool, randomCrop: real, randomScale: real,
                               randomBrightness: real)

  const AllOff := Settings(false, 0.0, 0.0, 0.0)

  /** Distortion is on exactly when the settings differ from the all-off ones,
      whatever they are. */
  lemma DistortIffChanged(s: Settings)
    ensures ShouldDistortImages(s.flipLeftRight, s.randomCrop, s.randomScale, s.randomBrightness)
            <==> s != AllOff
  {
  }
}
