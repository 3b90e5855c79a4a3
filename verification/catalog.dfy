/** The per-room movie catalog both server drafts build from the media
    service's folder listings: a map from theme name to the ordered list of
    that theme's movies, each starting out unguessed.

    The listings are inputs. `folders` is the list of theme folders in the
    order the service returned them. `listing` maps a theme to its movie
    folders; a theme absent from `listing` stands for a listing call that
    threw, which aborts the fill loop part-way. */
module Catalog {
  import opened Common

  datatype Movie = Movie(index: nat, name: string, guessed: bool, whoGuessed: Option<string>)

  type Themes = map<string, seq<Movie>>

  /** Every movie sits at its own index and nobody has guessed it yet. */
  predicate Unplayed(ms: seq<Movie>)
  {
    forall i :: 0 <= i < |ms| ==> ms[i].index == i && !ms[i].guessed && ms[i].whoGuessed.None?
  }

  /** The folder names of a movie list, in order. */
  function Names(ms: seq<Movie>): (r: seq<string>)
    ensures |r| == |ms|
    ensures forall i :: 0 <= i < |ms| ==> r[i] == ms[i].name
  {
    seq(|ms|, i requires 0 <= i < |ms| => ms[i].name)
  }

  /** The movie list of one theme: one fresh entry per movie folder,
      indexed by its position in the listing. */
  function MovieList(folders: seq<string>): (r: seq<Movie>)
    ensures Unplayed(r) && Names(r) == folders
  {
    seq(|folders|, i requires 0 <= i < |folders| => Movie(i, folders[i], false, None))
  }

  /** A movie list is the one built from `folders` exactly when it is
      unplayed and carries those names in that order. */
  lemma MovieListCharacterized(ms: seq<Movie>, folders: seq<string>)
    ensures ms == MovieList(folders) <==> Unplayed(ms) && Names(ms) == folders
  {
    if Unplayed(ms) && Names(ms) == folders {
      var built := MovieList(folders);
      assert |ms| == |built|;
      forall i | 0 <= i < |ms|
        ensures ms[i] == built[i]
      {
        assert Names(ms)[i] == folders[i];
      }
    }
  }

  /** Result of the fill loop: the themes map and whether every listing
      call succeeded, so that the loop ran to its end. */
  datatype Fetched = Fetched(themes: Themes, complete: bool)

  /** The fill loop of the catalog build. A theme already in the map is
      skipped. Otherwise the theme is first entered with an empty list,
      then its movie listing is fetched and mapped with `MovieList`; a
      failing fetch leaves the empty list and ends the loop. */
  function Fill(themes: Themes, folders: seq<string>, listing: map<string, seq<string>>): Fetched
    decreases |folders|
  {
    if |folders| == 0 then Fetched(themes, true)
    else if folders[0] in themes then Fill(themes, folders[1..], listing)
    else if folders[0] !in listing then Fetched(themes[folders[0] := []], false)
    else Fill(themes[folders[0] := MovieList(listing[folders[0]])], folders[1..], listing)
  }

  /** What a fill may add for theme `k`: the mapped listing when its fetch
      succeeded, the empty placeholder when it failed. */
  predicate Entered(themes: Themes, k: string, listing: map<string, seq<string>>)
    requires k in themes
  {
    themes[k] == (if k in listing then MovieList(listing[k]) else [])
  }

  /** Every theme folder's movie listing was fetched successfully. */
  predicate AllListed(folders: seq<string>, listing: map<string, seq<string>>)
  {
    forall j :: 0 <= j < |folders| ==> folders[j] in listing
  }

  /** Themes already in the map are neither removed nor rebuilt. */
  lemma {:induction false} FillKeepsExisting(themes: Themes, folders: seq<string>, listing: map<string, seq<string>>)
    ensures themes.Keys <= Fill(themes, folders, listing).themes.Keys
    ensures forall k :: k in themes ==> Fill(themes, folders, listing).themes[k] == themes[k]
    decreases |folders|
  {
    if |folders| == 0 {
    } else if folders[0] in themes {
      FillKeepsExisting(themes, folders[1..], listing);
    } else if folders[0] !in listing {
    } else {
      FillKeepsExisting(themes[folders[0] := MovieList(listing[folders[0]])], folders[1..], listing);
    }
  }

  /** Every theme the fill adds is one of the listed folders, holding its
      mapped movie list (or the empty placeholder of a failed fetch). */
  lemma {:induction false} FillAddsListed(themes: Themes, folders: seq<string>, listing: map<string, seq<string>>)
    ensures forall k :: k in Fill(themes, folders, listing).themes && k !in themes ==>
      k in folders && Entered(Fill(themes, folders, listing).themes, k, listing)
    decreases |folders|
  {
    if |folders| == 0 {
    } else if folders[0] in themes {
      FillAddsListed(themes, folders[1..], listing);
    } else if folders[0] !in listing {
    } else {
      var next := themes[folders[0] := MovieList(listing[folders[0]])];
      FillAddsListed(next, folders[1..], listing);
      FillKeepsExisting(next, folders[1..], listing);
    }
  }

  /** The loop runs to its end exactly when every listed theme that was
      not already present had a successful movie listing. */
  lemma {:induction false} FillCompleteIff(themes: Themes, folders: seq<string>, listing: map<string, seq<string>>)
    ensures Fill(themes, folders, listing).complete <==>
      forall j :: 0 <= j < |folders| ==> folders[j] in themes || folders[j] in listing
    decreases |folders|
  {
    if |folders| == 0 {
    } else if folders[0] in themes {
      FillCompleteIff(themes, folders[1..], listing);
      assert forall j :: 1 <= j < |folders| ==> folders[j] == folders[1..][j - 1];
    } else if folders[0] !in listing {
    } else {
      var next := themes[folders[0] := MovieList(listing[folders[0]])];
      FillCompleteIff(next, folders[1..], listing);
      assert forall j :: 1 <= j < |folders| ==> folders[j] == folders[1..][j - 1];
      assert forall j :: 1 <= j < |folders| ==> (folders[j] in next <==> folders[j] in themes || folders[j] == folders[0]);
    }
  }

  /** A complete fill holds exactly the old themes plus every listed folder. */
  lemma {:induction false} FillCompleteKeys(themes: Themes, folders: seq<string>, listing: map<string, seq<string>>)
    requires Fill(themes, folders, listing).complete
    ensures Fill(themes, folders, listing).themes.Keys == themes.Keys + set j | 0 <= j < |folders| :: folders[j]
    decreases |folders|
  {
    if |folders| == 0 {
    } else if folders[0] in themes {
      FillCompleteKeys(themes, folders[1..], listing);
      assert (set j | 0 <= j < |folders| :: folders[j])
        == {folders[0]} + set j | 0 <= j < |folders[1..]| :: folders[1..][j];
    } else {
      var next := themes[folders[0] := MovieList(listing[folders[0]])];
      FillCompleteKeys(next, folders[1..], listing);
      assert (set j | 0 <= j < |folders| :: folders[j])
        == {folders[0]} + set j | 0 <= j < |folders[1..]| :: folders[1..][j];
    }
  }
}
