/**
 * Constants that the app takes from the Android TV provider library
 * (`TvContractCompat.PreviewPrograms` and `TvContractCompat.PreviewProgramColumns`).
 * Their values are those the library publishes; the library itself is not part of this model.
 */
module TvContract {
  const ASPECT_RATIO_16_9: int := 0
  const ASPECT_RATIO_3_2: int := 1
  const ASPECT_RATIO_4_3: int := 2
  const ASPECT_RATIO_1_1: int := 3
  const ASPECT_RATIO_2_3: int := 4
  const ASPECT_RATIO_MOVIE_POSTER: int := 5

  const TYPE_MOVIE: int := 0
}
