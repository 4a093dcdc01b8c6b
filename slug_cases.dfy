/** Worked cases of the slug helpers. */
module SlugCases {
  import opened Text
  import opened Slugs

  /** The page slug of a two-segment path `/a/b`. */
  lemma PageSlugTwoSegments(httpMethod: string, a: string, b: string)
    requires '/' !in a && '/' !in b
    ensures PageSlug(httpMethod, "/" + a + "/" + b) == Lower(httpMethod) + "-" + (a + b)
  {
    assert "/" + a + "/" + b == ("/" + a) + ("/" + b);
    RemoveConcat("/" + a, "/" + b, '/');
    RemoveLeading(a, '/');
    RemoveLeading(b, '/');
  }

  /** A tag without whitespace slugs to its lower-case form. */
  lemma GroupSlugOfWord(tag: string)
    requires forall i :: 0 <= i < |tag| ==> !IsSpace(tag[i])
    ensures GroupSlug(tag) == Lower(tag)
  {
    assert Strip(tag) == tag by {
      StripFixed(tag);
    }
    assert ' ' !in Lower(tag) by {
      var low := Lower(tag);
      assert forall i :: 0 <= i < |low| ==> low[i] == LowerChar(tag[i]) && low[i] != ' ';
    }
    ReplaceAbsent(Lower(tag), ' ', '-');
  }

  /** The string-literal step of `PagePathExample`: the pieces of the example
      page path, joined. Kept apart so that it is proved in a small context. */
  lemma ExampleSpelling()
    ensures PagePrefix + "trading" + "/" + ("get" + "-" + ("private" + "get_positions"))
         == "api-reference/trading/get-privateget_positions"
  {
  }

  /** The example from the source: `GET /private/get_positions` tagged
      `Trading` is documented at `api-reference/trading/get-privateget_positions`. */
  lemma PagePathExample(tag: string, httpMethod: string, path: string)
    requires tag == "Trading" && httpMethod == "GET" && path == "/private/get_positions"
    ensures ToPagePath(tag, PageSlug(httpMethod, path)) == "api-reference/trading/get-privateget_positions"
  {
    var a, b := "private", "get_positions";
    assert path == "/" + a + "/" + b;
    assert '/' !in a && '/' !in b;
    ExampleSpelling();
    assert Lower(httpMethod) == "get" by {
      var lowered := Lower(httpMethod);
      assert lowered[0] == 'g' && lowered[1] == 'e' && lowered[2] == 't';
    }
    assert Lower(tag) == "trading" by {
      var name := Lower(tag);
      assert forall i :: 0 <= i < 7 ==> name[i] == "trading"[i];
    }
    assert forall i :: 0 <= i < |tag| ==> !IsSpace(tag[i]);
    GroupSlugOfWord(tag);
    PageSlugTwoSegments(httpMethod, a, b);
  }

  /** Two different endpoints `/a/b` and `/ab` share a page slug: removing the
      slashes loses where the segments were. */
  lemma PageSlugCollision(httpMethod: string, a: string, b: string)
    requires '/' !in a && '/' !in b
    ensures "/" + a + "/" + b != "/" + a + b
    ensures PageSlug(httpMethod, "/" + a + "/" + b) == PageSlug(httpMethod, "/" + a + b)
  {
    assert |"/" + a + "/" + b| != |"/" + a + b|;
    assert "/" + a + b == "/" + (a + b);
    PageSlugTwoSegments(httpMethod, a, b);
    RemoveLeading(a + b, '/');
  }
}
