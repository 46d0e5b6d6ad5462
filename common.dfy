/** Values shared by the request handlers and the services: optional query
    parameters, validation outcomes carrying an HTTP error, and stored colours. */
module Common {

  datatype Option<+T> = None | Some(value: T)

  /** An HTTP error as raised by the handlers: a status code and a detail text. */
  datatype HttpError = HttpError(status: int, detail: string)

  /** The outcome of a validation stage: it either lets the request through or
      stops it with an error. */
  datatype Outcome = Pass | Fail(error: HttpError)

  datatype Result<+T> = Ok(value: T) | Err(error: HttpError)

  /** A stored dominant colour. The code keeps it as an untyped JSON value (a
      list of cluster centres from the processor, a map of components in the
      mock wardrobe); a triple stands in for that payload, which the modelled
      code only ever copies. */
  datatype Rgb = Rgb(r: int, g: int, b: int)
}

/** Order facts about real multiplication and division by a positive number. */
module RealOrder {

  /** Multiplying by a positive number keeps the order of two reals. */
  lemma CompareScaled(q: real, t: real, h: real)
    requires h > 0.0
    ensures q > t <==> q * h > t * h
    ensures q < t <==> q * h < t * h
  {
    assert q * h - t * h == (q - t) * h;
  }

  /** Comparing a quotient with a threshold is comparing the dividend with the
      threshold times the positive divisor. */
  lemma QuotientCompare(w: real, h: real, t: real)
    requires h > 0.0
    ensures w / h > t <==> w > t * h
    ensures w / h < t <==> w < t * h
  {
    var q := w / h;
    assert q * h == w;
    CompareScaled(q, t, h);
  }
}
