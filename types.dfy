/** The values the recommender works on: rating observations and catalogue entries. */
module Types {

  type UserId = int
  type MovieId = int
  type Title = string

  datatype Option<T> = None | Some(value: T)

  /**
   * One row of the ratings table after it has been joined with the catalogue.
   * `title` is `None` for a row whose title column is missing (a NaN cell in
   * the data frame); rows coming from the join always carry `Some(title)`.
   */
  datatype Observation = Observation(
    userId: UserId,
    movieId: MovieId,
    rating: real,
    timestamp: real,
    title: Option<Title>)

  /** One catalogue entry (the genres column plays no part in the core). */
  datatype Movie = Movie(movieId: MovieId, title: Title)
}
