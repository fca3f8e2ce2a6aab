/** `TvLauncherUtils.parseAspectRatio`: the aspect-ratio constants of preview programs as rationals. */
module LauncherUtils {
  import opened Wrappers
  import opened TvContract
  import MediaModels

  /** `android.util.Rational`. */
  datatype Rational = Rational(numerator: int, denominator: int)

  /** The `IllegalArgumentException` thrown for an unknown constant. */
  datatype AspectRatioError = UnknownAspectRatio(constant: int)

  /** The constants `parseAspectRatio` accepts. */
  const ASPECT_RATIO_CONSTANTS: set<int> :=
    {ASPECT_RATIO_16_9, ASPECT_RATIO_1_1, ASPECT_RATIO_2_3, ASPECT_RATIO_3_2, ASPECT_RATIO_4_3, ASPECT_RATIO_MOVIE_POSTER}

  function ParseAspectRatio(ratioConstant: int): (r: Result<Rational, AspectRatioError>)
    ensures r.Success? <==> ratioConstant in ASPECT_RATIO_CONSTANTS
    ensures r.Failure? ==> r.error == UnknownAspectRatio(ratioConstant)
    ensures r.Success? ==> r.value.numerator > 0 && r.value.denominator > 0
  {
    if ratioConstant == ASPECT_RATIO_16_9 then Success(Rational(16, 9))
    else if ratioConstant == ASPECT_RATIO_1_1 then Success(Rational(1, 1))
    else if ratioConstant == ASPECT_RATIO_2_3 then Success(Rational(2, 3))
    else if ratioConstant == ASPECT_RATIO_3_2 then Success(Rational(3, 2))
    else if ratioConstant == ASPECT_RATIO_4_3 then Success(Rational(4, 3))
    else if ratioConstant == ASPECT_RATIO_MOVIE_POSTER then Success(Rational(1000, 1441))
    else Failure(UnknownAspectRatio(ratioConstant))
  }

  /** The value of a rational, compared by cross-multiplication. */
  predicate SameRatio(a: Rational, b: Rational) {
    a.numerator * b.denominator == b.numerator * a.denominator
  }

  /** The named ratios are the expected ones. */
  lemma ParseAspectRatioTable()
    ensures ParseAspectRatio(ASPECT_RATIO_16_9) == Success(Rational(16, 9))
    ensures ParseAspectRatio(ASPECT_RATIO_1_1) == Success(Rational(1, 1))
    ensures ParseAspectRatio(ASPECT_RATIO_2_3) == Success(Rational(2, 3))
    ensures ParseAspectRatio(ASPECT_RATIO_3_2) == Success(Rational(3, 2))
    ensures ParseAspectRatio(ASPECT_RATIO_4_3) == Success(Rational(4, 3))
    ensures ParseAspectRatio(ASPECT_RATIO_MOVIE_POSTER) == Success(Rational(1000, 1441))
  {
  }

  /** Different accepted constants denote different ratios. */
  lemma ParseAspectRatioInjective(c1: int, c2: int)
    requires ParseAspectRatio(c1).Success? && ParseAspectRatio(c2).Success?
    ensures SameRatio(ParseAspectRatio(c1).value, ParseAspectRatio(c2).value) <==> c1 == c2
  {
  }

  /** A record's default `artAspectRatio` always parses, to the movie-poster ratio. */
  lemma DefaultArtAspectRatioParses(id: string, collectionId: string, title: string, contentUri: string)
    ensures ParseAspectRatio(MediaModels.NewMetadata(id, collectionId, title, contentUri).artAspectRatio)
      == Success(Rational(1000, 1441))
  {
  }
}
