/**
  The music player's playlist state: which song is current, whether it
  plays, the audio element it holds, and the favourite song kept in local
  storage. Playback position, volume and the markup are left to the browser.
*/
module MusicPlayer {
  import opened Wrappers
  import opened JsMath

  datatype Song = Song(url: string, title: string)

  /** The `Audio` element the player holds: its source and whether it is paused. */
  datatype AudioElement = AudioElement(url: string, paused: bool)

  /**
    The player's fields. `selected` lists the songs handed to the
    `onSongSelect` callback, in order.
  */
  datatype Player = Player(
    songs: seq<Song>,
    currentIndex: int,
    audio: Option<AudioElement>,
    isPlaying: bool,
    selected: seq<Song>)

  /** A player after construction. */
  const Fresh := Player([], 0, None, false, [])

  /**
    `playSong(idx)`: nothing without songs; otherwise the old element is
    dropped and the index set; a song at the index is loaded and played,
    and a missing one makes `song.url` throw with no element left.
  */
  function PlaySong(p: Player, idx: int): (r: Player)
    ensures |p.songs| == 0 ==> r == p
    ensures |p.songs| > 0 ==> r.currentIndex == idx && r.songs == p.songs
    ensures |p.songs| > 0 && 0 <= idx < |p.songs| ==>
      r.isPlaying && r.audio == Some(AudioElement(p.songs[idx].url, false)) && r.selected == p.selected + [p.songs[idx]]
    ensures |p.songs| > 0 && !(0 <= idx < |p.songs|) ==>
      r.audio.None? && r.isPlaying == p.isPlaying && r.selected == p.selected
  {
    if |p.songs| == 0 then p
    else if 0 <= idx < |p.songs| then
      var song := p.songs[idx];
      p.(currentIndex := idx, audio := Some(AudioElement(song.url, false)), isPlaying := true, selected := p.selected + [song])
    else
      p.(currentIndex := idx, audio := None)
  }

  /** `nextSong`: one forward, wrapping to the first. */
  function NextSong(p: Player): (r: Player)
    ensures |p.songs| == 0 ==> r == p
    ensures |p.songs| > 0 && 0 <= p.currentIndex < |p.songs| ==>
      r.currentIndex == (if p.currentIndex == |p.songs| - 1 then 0 else p.currentIndex + 1)
      && r.isPlaying && 0 <= r.currentIndex < |p.songs|
  {
    if |p.songs| == 0 then p
    else
      StepForward(p.currentIndex, |p.songs|);
      PlaySong(p, JsRem(p.currentIndex + 1, |p.songs|))
  }

  /** `prevSong`: one back, wrapping to the last. */
  function PrevSong(p: Player): (r: Player)
    ensures |p.songs| == 0 ==> r == p
    ensures |p.songs| > 0 && 0 <= p.currentIndex < |p.songs| ==>
      r.currentIndex == (if p.currentIndex == 0 then |p.songs| - 1 else p.currentIndex - 1)
      && r.isPlaying && 0 <= r.currentIndex < |p.songs|
  {
    if |p.songs| == 0 then p
    else
      StepBack(p.currentIndex, |p.songs|);
      PlaySong(p, JsRem(p.currentIndex - 1 + |p.songs|, |p.songs|))
  }

  lemma StepForward(c: int, n: int)
    requires n > 0
    ensures 0 <= c < n ==> JsRem(c + 1, n) == if c == n - 1 then 0 else c + 1
  {
    if 0 <= c < n && c == n - 1 {
      assert (c + 1) % n == n % n == 0;
    }
  }

  lemma StepBack(c: int, n: int)
    requires n > 0
    ensures 0 <= c < n ==> JsRem(c - 1 + n, n) == if c == 0 then n - 1 else c - 1
  {
    if 0 <= c < n && c > 0 {
      assert (c - 1 + n) % n == ((c - 1) + n) % n == c - 1;
    }
  }

  /** Back after forward, and forward after back, return to the same song. */
  lemma PrevUndoesNext(p: Player)
    requires 0 <= p.currentIndex < |p.songs|
    ensures PrevSong(NextSong(p)).currentIndex == p.currentIndex
    ensures NextSong(PrevSong(p)).currentIndex == p.currentIndex
  {
  }

  /** `k` presses of next, for `k` up to the list length, move `k` songs on, wrapping once. */
  lemma {:induction false} NextCycles(p: Player, k: nat)
    requires 0 <= p.currentIndex < |p.songs| && k <= |p.songs|
    ensures NextTimes(p, k).currentIndex
         == (if p.currentIndex + k < |p.songs| then p.currentIndex + k else p.currentIndex + k - |p.songs|)
    ensures NextTimes(p, k).songs == p.songs
  {
    if k > 0 {
      NextCycles(p, k - 1);
    }
  }

  function NextTimes(p: Player, k: nat): (r: Player)
    ensures |p.songs| > 0 && 0 <= p.currentIndex < |p.songs| ==> 0 <= r.currentIndex < |p.songs| && r.songs == p.songs
  {
    if k == 0 then p else NextSong(NextTimes(p, k - 1))
  }

  /** Going round the playlist once comes back to the same song. */
  lemma FullCircle(p: Player)
    requires 0 <= p.currentIndex < |p.songs|
    ensures NextTimes(p, |p.songs|).currentIndex == p.currentIndex
  {
    NextCycles(p, |p.songs|);
  }

  /** `pauseSong`: only with an element; it pauses and clears the flag. */
  function PauseSong(p: Player): (r: Player)
    ensures p.audio.None? ==> r == p
    ensures p.audio.Some? ==> !r.isPlaying && r.audio == Some(p.audio.value.(paused := true))
  {
    if p.audio.Some? then p.(audio := Some(p.audio.value.(paused := true)), isPlaying := false) else p
  }

  /** `togglePlayPause`: play when there is no element, pause while playing, resume otherwise. */
  function TogglePlayPause(p: Player): (r: Player)
    ensures p.audio.None? ==> r == PlaySong(p, p.currentIndex)
    ensures p.audio.Some? && p.isPlaying ==> r == PauseSong(p)
    ensures p.audio.Some? && !p.isPlaying ==> r.isPlaying && r.audio == Some(p.audio.value.(paused := false))
    ensures p.audio.Some? ==> r.currentIndex == p.currentIndex && r.selected == p.selected
  {
    if p.audio.None? then PlaySong(p, p.currentIndex)
    else if p.isPlaying then PauseSong(p)
    else p.(audio := Some(p.audio.value.(paused := false)), isPlaying := true)
  }

  /** Toggling twice with an element returns to the same playing state and element. */
  lemma ToggleTwice(p: Player)
    requires p.audio.Some? && (p.isPlaying <==> !p.audio.value.paused)
    ensures TogglePlayPause(TogglePlayPause(p)) == p
  {
  }

  /** `_onEnded`: stop at the end of the track; the index stays. */
  function OnEnded(p: Player): (r: Player)
    ensures !r.isPlaying && r.currentIndex == p.currentIndex && r.songs == p.songs
    ensures p.audio.Some? ==> r.audio.Some? && r.audio.value.paused && r.audio.value.url == p.audio.value.url
  {
    p.(isPlaying := false, audio := if p.audio.Some? then Some(p.audio.value.(paused := true)) else None)
  }

  /** `cleanup`: the element is dropped; the flag is left as it was. */
  function Cleanup(p: Player): (r: Player)
    ensures r.audio.None? && r == p.(audio := None)
  {
    p.(audio := None)
  }

  /** `setSongs`: an index past the end of the new list goes back to 0. */
  function SetSongs(p: Player, songs: seq<Song>): (r: Player)
    ensures r.songs == songs
    ensures p.currentIndex >= |songs| ==> r.currentIndex == 0
    ensures p.currentIndex < |songs| ==> r.currentIndex == p.currentIndex
    ensures r.audio == p.audio && r.isPlaying == p.isPlaying
  {
    p.(songs := songs, currentIndex := if p.currentIndex >= |songs| then 0 else p.currentIndex)
  }

  /** A non-negative index stays on a song after a non-empty list arrives. */
  lemma SetSongsInRange(p: Player, songs: seq<Song>)
    requires p.currentIndex >= 0 && |songs| > 0
    ensures 0 <= SetSongs(p, songs).currentIndex < |songs|
  {
  }

  /** The element and the flag agree: playing exactly when the element is not paused. */
  predicate Consistent(p: Player) {
    p.audio.Some? ==> (p.isPlaying <==> !p.audio.value.paused)
  }

  /** Every transition keeps the flag in step with the element. */
  lemma TransitionsKeepConsistent(p: Player, idx: int, songs: seq<Song>)
    requires Consistent(p)
    ensures Consistent(PlaySong(p, idx)) && Consistent(NextSong(p)) && Consistent(PrevSong(p))
    ensures Consistent(PauseSong(p)) && Consistent(TogglePlayPause(p)) && Consistent(OnEnded(p))
    ensures Consistent(Cleanup(p)) && Consistent(SetSongs(p, songs))
  {
  }

  /** The storage key of the favourite. */
  const FavoriteKey := "musicPlayerFavoriteSongUrl"

  /** `songs.findIndex((s) => s.url === url)`. */
  function FindUrl(songs: seq<Song>, url: string): (i: int)
    ensures -1 <= i < |songs|
    ensures i == -1 <==> forall j :: 0 <= j < |songs| ==> songs[j].url != url
    ensures i >= 0 ==> songs[i].url == url && forall j :: 0 <= j < i ==> songs[j].url != url
  {
    if |songs| == 0 then -1
    else if songs[0].url == url then 0
    else
      var i := FindUrl(songs[1..], url);
      if i == -1 then -1 else i + 1
  }

  /** `getFavoriteSongIdx`: `null` without a stored url or without songs, else the first matching index or -1. */
  function GetFavoriteSongIdx(storage: map<string, string>, songs: seq<Song>): (r: Option<int>)
    ensures r.None? <==> FavoriteKey !in storage || storage[FavoriteKey] == "" || |songs| == 0
    ensures r.Some? ==> r.value == FindUrl(songs, storage[FavoriteKey])
  {
    if FavoriteKey !in storage || storage[FavoriteKey] == "" || |songs| == 0 then None
    else Some(FindUrl(songs, storage[FavoriteKey]))
  }

  /** The favourite row upserted for the signed-in user. */
  datatype FavoriteRow = FavoriteRow(userId: string, songId: string)

  /**
    `setFavoriteSongIdx(idx)`: with no song at the index nothing happens;
    otherwise the url is stored locally and, for a signed-in user, upserted.
  */
  function SetFavoriteSongIdx(storage: map<string, string>, songs: seq<Song>, idx: int, userId: Option<string>): (r: (map<string, string>, Option<FavoriteRow>))
    ensures !(0 <= idx < |songs|) ==> r == (storage, None)
    ensures 0 <= idx < |songs| ==> r.0 == storage[FavoriteKey := songs[idx].url]
    ensures r.1.Some? <==> 0 <= idx < |songs| && userId.Some? && userId.value != ""
    ensures r.1.Some? ==> r.1.value == FavoriteRow(userId.value, songs[idx].url)
  {
    if !(0 <= idx < |songs|) then (storage, None)
    else
      var stored := storage[FavoriteKey := songs[idx].url];
      if userId.Some? && userId.value != "" then (stored, Some(FavoriteRow(userId.value, songs[idx].url)))
      else (stored, None)
  }

  /**
    Marking a song with a non-empty url as favourite makes it read back as
    the favourite, unless an earlier song shares its url.
  */
  lemma FavoriteRoundTrip(storage: map<string, string>, songs: seq<Song>, idx: int, userId: Option<string>)
    requires 0 <= idx < |songs| && songs[idx].url != ""
    ensures var fav := GetFavoriteSongIdx(SetFavoriteSongIdx(storage, songs, idx, userId).0, songs);
      fav.Some? && 0 <= fav.value <= idx && songs[fav.value].url == songs[idx].url
    ensures (forall j :: 0 <= j < idx ==> songs[j].url != songs[idx].url) ==>
      GetFavoriteSongIdx(SetFavoriteSongIdx(storage, songs, idx, userId).0, songs) == Some(idx)
  {
  }
}
