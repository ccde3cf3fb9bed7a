/** Failure values shared by the bee-ID codec and the calibration pipeline.
    Each constructor of `Error` stands for one exception the Python code raises. */
module Results {

  datatype Error =
    | AssertionFailed      // `assert(bee_id < 4096)` in `_dec_to_bin`
    | WrongPointCount      // `ValueError("List must be of length 4.")`
    | UnsupportedYear      // `ValueError("Homography data only available for 2018.")`
    | NoSpecialMarker      // `np.argwhere(...)[0]` on an empty match: IndexError
    | NoDetectionInRegion  // `r[0]` on an empty detection list: IndexError

  datatype Result<+T> = Ok(value: T) | Err(error: Error)

  datatype Option<+T> = None | Some(value: T)
}
