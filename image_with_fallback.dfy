/** The image-with-fallback component: two state fields, `imgSrc` and
    `hasError`, driven by the image's error and load events and by the
    render-time resynchronisation with the `src` prop; and the choice between
    the placeholder and the image. The `fallbackSrc` prop is taken as fixed for
    the life of an instance. */
module ImageWithFallback {
  import opened NewsTypes

  const DEFAULT_FALLBACK := "data:image/svg+xml,%3Csvg xmlns=\"http://www.w3.org/2000/svg\" width=\"400\" height=\"200\"%3E%3Crect fill=\"%23f0f0f0\" width=\"400\" height=\"200\"/%3E%3Ctext fill=\"%23999\" font-family=\"sans-serif\" font-size=\"14\" x=\"50%25\" y=\"50%25\" text-anchor=\"middle\" dominant-baseline=\"middle\"%3EЗображення недоступне%3C/text%3E%3C/svg%3E"

  /** What the component renders. */
  datatype ImageView = Placeholder | Img(src: string)

  /** An empty or absent source shows the placeholder; anything else is an image of that source. */
  function ViewFor(imgSrc: Option<string>): (v: ImageView)
    ensures v.Placeholder? <==> !Truthy(imgSrc)
    ensures v.Img? ==> imgSrc == Some(v.src) && v.src != ""
  {
    if Truthy(imgSrc) then Img(imgSrc.value) else Placeholder
  }

  /** The component as written. */
  class FallbackImage {
    var imgSrc: Option<string>
    var hasError: bool
    const fallbackSrc: string

    /** While the error flag is up, the fallback is what is shown. */
    ghost predicate Valid()
      reads this
    {
      hasError ==> imgSrc == Some(fallbackSrc)
    }

    constructor (src: Option<string>, fallbackSrc: string)
      ensures Valid()
      ensures imgSrc == src && !hasError && this.fallbackSrc == fallbackSrc
    {
      imgSrc := src;
      hasError := false;
      this.fallbackSrc := fallbackSrc;
    }

    /** `handleError`: switches to the fallback once; a second error changes nothing. */
    method HandleError()
      requires Valid()
      modifies this
      ensures Valid()
      ensures !old(hasError) ==> hasError && imgSrc == Some(fallbackSrc)
      ensures old(hasError) ==> hasError && imgSrc == old(imgSrc)
    {
      if !hasError {
        hasError := true;
        imgSrc := Some(fallbackSrc);
      }
    }

    /** `handleLoad`: clears the error flag and keeps the source. */
    method HandleLoad()
      requires Valid()
      modifies this
      ensures Valid()
      ensures !hasError && imgSrc == old(imgSrc)
    {
      hasError := false;
    }

    /** A render with prop `src`: a differing prop replaces `imgSrc` only while
        no error is flagged; then the view follows `imgSrc`. */
    method Render(src: Option<string>) returns (v: ImageView)
      requires Valid()
      modifies this
      ensures Valid()
      ensures hasError == old(hasError)
      ensures !old(hasError) ==> imgSrc == src
      ensures old(hasError) ==> imgSrc == old(imgSrc)
      ensures v == ViewFor(imgSrc)
    {
      if src != imgSrc && !hasError {
        imgSrc := src;
      }
      v := ViewFor(imgSrc);
    }
  }

  /** A source that fails to load while the default fallback loads (neither
      card nor detail page passes a fallback of its own): after the error,
      the fallback's load and the next render, the broken source is shown
      again with the error flag down — the state right after the first
      render — so the browser's next error event starts the same cycle. */
  method BrokenSourceCycles(src: string)
      returns (first: ImageView, afterFallback: ImageView, afterRecovery: ImageView, errorFlag: bool)
    requires src != "" && src != DEFAULT_FALLBACK
    ensures first == Img(src)
    ensures afterFallback == Img(DEFAULT_FALLBACK)
    ensures afterRecovery == Img(src) && !errorFlag
  {
    var image := new FallbackImage(Some(src), DEFAULT_FALLBACK);
    first := image.Render(Some(src));
    image.HandleError();
    afterFallback := image.Render(Some(src));
    image.HandleLoad();
    afterRecovery := image.Render(Some(src));
    errorFlag := image.hasError;
  }

  /** The component with the resynchronisation keyed on the `src` prop
      changing, rather than on `imgSrc` differing from it: the fallback, once
      shown for a source, stays until a different source is passed. */
  class KeyedFallbackImage {
    var imgSrc: Option<string>
    var hasError: bool
    var lastSrc: Option<string>
    const fallbackSrc: string

    /** What is shown is the current source or the fallback. */
    ghost predicate Valid()
      reads this
    {
      (hasError ==> imgSrc == Some(fallbackSrc))
      && (imgSrc == lastSrc || imgSrc == Some(fallbackSrc))
    }

    constructor (src: Option<string>, fallbackSrc: string)
      ensures Valid()
      ensures imgSrc == src && lastSrc == src && !hasError && this.fallbackSrc == fallbackSrc
    {
      imgSrc := src;
      lastSrc := src;
      hasError := false;
      this.fallbackSrc := fallbackSrc;
    }

    method HandleError()
      requires Valid()
      modifies this
      ensures Valid()
      ensures hasError && imgSrc == (if old(hasError) then old(imgSrc) else Some(fallbackSrc))
      ensures lastSrc == old(lastSrc)
    {
      if !hasError {
        hasError := true;
        imgSrc := Some(fallbackSrc);
      }
    }

    method HandleLoad()
      requires Valid()
      modifies this
      ensures Valid()
      ensures !hasError && imgSrc == old(imgSrc) && lastSrc == old(lastSrc)
    {
      hasError := false;
    }

    /** A new prop restarts from that source; the same prop changes nothing. */
    method Render(src: Option<string>) returns (v: ImageView)
      requires Valid()
      modifies this
      ensures Valid()
      ensures lastSrc == src
      ensures src != old(lastSrc) ==> imgSrc == src && !hasError
      ensures src == old(lastSrc) ==> imgSrc == old(imgSrc) && hasError == old(hasError)
      ensures v == ViewFor(imgSrc)
    {
      if src != lastSrc {
        lastSrc := src;
        imgSrc := src;
        hasError := false;
      }
      v := ViewFor(imgSrc);
    }
  }

  /** The same event sequence against the keyed component: once the fallback
      is shown for a source it stays, and a new source is still picked up. */
  method BrokenSourceSettles(src: string, nextSrc: string)
      returns (first: ImageView, afterFallback: ImageView, afterRecovery: ImageView, afterNewSource: ImageView)
    requires src != "" && nextSrc != "" && nextSrc != src
    ensures first == Img(src)
    ensures afterFallback == Img(DEFAULT_FALLBACK)
    ensures afterRecovery == Img(DEFAULT_FALLBACK)
    ensures afterNewSource == Img(nextSrc)
  {
    var image := new KeyedFallbackImage(Some(src), DEFAULT_FALLBACK);
    first := image.Render(Some(src));
    image.HandleError();
    afterFallback := image.Render(Some(src));
    image.HandleLoad();
    afterRecovery := image.Render(Some(src));
    afterNewSource := image.Render(Some(nextSrc));
  }
}
