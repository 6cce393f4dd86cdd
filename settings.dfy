/** The settings validator of `Config` in the main application: a fixed
    chain of guards over the colour, movement and capture-area settings,
    the first failing one deciding the error, and the shipped defaults
    those guards are applied to. */
module SettingsValidation {
  import opened Common

  /** The values of `Config` that the validator reads or the defaults
      test checks. The colour settings are `UInt8`. */
  datatype Config = Config(
    blueMinValue: Byte, redMaxValue: Byte, greenMaxValue: Byte,
    movementThreshold: real, smoothingFactor: real, useMotionPrediction: bool,
    captureRect: Rect, scanStep: nat, minBluePixels: int, showHighlight: bool)

  /** `appVersion`, shown in the window title and the log. */
  const AppVersion: string := "3.5"

  /** The shipped values: colours 180/100/120, threshold 5, smoothing
      0.5, prediction on, an empty capture rectangle at the origin, a scan
      step of 4, at least 10 blue pixels, and the highlight shown. */
  const Defaults := Config(180, 100, 120, 5.0, 0.5, true, Rect(0.0, 0.0, 0.0, 0.0), 4, 10, true)

  /** `Config.ValidationError`. */
  datatype ValidationError =
    | InvalidColorValue(message: string)
    | InvalidMovementValue(message: string)
    | InvalidCaptureRect

  /** The outcome of `validateSettings`: it returns, or it throws. */
  datatype Validation = Passed | Failed(error: ValidationError)

  /** The movement settings are acceptable: a positive threshold and a
      smoothing factor in the closed range [0.1, 0.9]. */
  predicate MovementValid(c: Config)
  {
    c.movementThreshold > 0.0 && 0.1 <= c.smoothingFactor <= 0.9
  }

  /** The capture rectangle has a positive (standardized) width and
      height. */
  predicate CaptureValid(c: Config)
  {
    Width(c.captureRect) > 0.0 && Height(c.captureRect) > 0.0
  }

  /** `validateSettings`: the colour guards, the threshold guard, the
      smoothing guard and the rectangle guard, in that order. The colour
      guards can never throw, since a byte always lies in 0...255, so the
      settings pass exactly when the movement settings and the rectangle
      are acceptable, and a movement error is reported before a rectangle
      error. */
  function ValidateSettings(c: Config): (r: Validation)
    ensures r == Passed <==> MovementValid(c) && CaptureValid(c)
    ensures !(r.Failed? && r.error.InvalidColorValue?)
    ensures r.Failed? && r.error.InvalidMovementValue? <==> !MovementValid(c)
    ensures r == Failed(InvalidCaptureRect) <==> MovementValid(c) && !CaptureValid(c)
    ensures c.movementThreshold <= 0.0 ==>
      r == Failed(InvalidMovementValue("Movement threshold must be positive"))
    ensures c.movementThreshold > 0.0 && !(0.1 <= c.smoothingFactor <= 0.9) ==>
      r == Failed(InvalidMovementValue("Smoothing factor must be between 0.1 and 0.9"))
  {
    if !(0 <= c.blueMinValue <= 255) then
      Failed(InvalidColorValue("Blue min value must be between 0 and 255"))
    else if !(0 <= c.redMaxValue <= 255) then
      Failed(InvalidColorValue("Red max value must be between 0 and 255"))
    else if !(0 <= c.greenMaxValue <= 255) then
      Failed(InvalidColorValue("Green max value must be between 0 and 255"))
    else if !(c.movementThreshold > 0.0) then
      Failed(InvalidMovementValue("Movement threshold must be positive"))
    else if !(0.1 <= c.smoothingFactor <= 0.9) then
      Failed(InvalidMovementValue("Smoothing factor must be between 0.1 and 0.9"))
    else if !(Width(c.captureRect) > 0.0 && Height(c.captureRect) > 0.0) then
      Failed(InvalidCaptureRect)
    else
      Passed
  }

  /** `applyAndValidateSettings`: true exactly when validation does not
      throw. It reads the settings and changes none of them. */
  function ApplyAndValidateSettings(c: Config): (ok: bool)
    ensures ok <==> MovementValid(c) && CaptureValid(c)
  {
    match ValidateSettings(c)
    case Passed => true
    case Failed(_) => false
  }

  /** The shipped defaults are the values the unit test expects, and they
      fail validation on the empty capture rectangle alone: setting any
      rectangle of positive size makes them pass. */
  lemma DefaultsNeedCaptureRect(r: Rect)
    ensures AppVersion == "3.5"
    ensures Defaults.blueMinValue == 180 && Defaults.redMaxValue == 100 && Defaults.greenMaxValue == 120
    ensures Defaults.movementThreshold == 5.0 && Defaults.smoothingFactor == 0.5 && Defaults.scanStep == 4
    ensures Defaults.minBluePixels == 10 && Defaults.showHighlight && Defaults.useMotionPrediction
    ensures ValidateSettings(Defaults) == Failed(InvalidCaptureRect)
    ensures ApplyAndValidateSettings(Defaults.(captureRect := r)) <==> Width(r) > 0.0 && Height(r) > 0.0
  {
  }
}
