/**
  The click-sound manager: preferences decide whether sounds play, sounds
  are preloaded once by name, volume is clamped, and a toggle stores the
  mute flag. Local storage is a map; `prefers-reduced-motion` is an input.
*/
module Audio {
  import opened Wrappers

  /** A preloaded sound: its source, preload mode, volume and how often `load()` was called. */
  datatype Sound = Sound(src: string, preload: string, volume: real, loads: nat)

  datatype Manager = Manager(sounds: map<string, Sound>, enabled: bool, initialized: bool)

  const MutedKey := "audio-muted"
  const DefaultVolume: real := 0.3

  /** The stored mute flag is exactly the text "true". */
  predicate StoredMuted(storage: map<string, string>) {
    MutedKey in storage && storage[MutedKey] == "true"
  }

  /** `checkPreferences`. */
  function CheckPreferences(m: Manager, reducedMotion: bool, storage: map<string, string>): (r: Manager)
    ensures r.enabled <==> !reducedMotion && !StoredMuted(storage)
    ensures r.sounds == m.sounds && r.initialized == m.initialized
  {
    m.(enabled := !reducedMotion && !StoredMuted(storage))
  }

  /** A new manager: no sounds, preferences read once. */
  function Create(reducedMotion: bool, storage: map<string, string>): (m: Manager)
    ensures m.sounds == map[] && !m.initialized
    ensures m.enabled <==> !reducedMotion && !StoredMuted(storage)
  {
    CheckPreferences(Manager(map[], true, false), reducedMotion, storage)
  }

  /** `preload`: an existing sound is never replaced; a new one starts at volume 0.3. */
  function Preload(m: Manager, name: string, src: string, lazy: bool): (r: Manager)
    ensures name in m.sounds ==> r == m
    ensures name !in m.sounds ==> r == m.(sounds := m.sounds[name := Sound(src, if lazy then "none" else "auto", DefaultVolume, 0)])
    ensures r.sounds.Keys == m.sounds.Keys + {name}
  {
    if name in m.sounds then m
    else m.(sounds := m.sounds[name := Sound(src, if lazy then "none" else "auto", DefaultVolume, 0)])
  }

  /** Preloading a name twice keeps the first source. */
  lemma PreloadKeepsFirst(m: Manager, name: string, src1: string, src2: string, lazy1: bool, lazy2: bool)
    ensures var once := Preload(m, name, src1, lazy1);
      Preload(once, name, src2, lazy2) == once
  {
  }

  /** The copy `play` starts: same source and volume as the preloaded sound. */
  datatype Playback = Playback(src: string, volume: real)

  /** `play`: nothing when disabled or for an unknown name. */
  function Play(m: Manager, name: string): (p: Option<Playback>)
    ensures p.Some? <==> m.enabled && name in m.sounds
    ensures p.Some? ==> p.value == Playback(m.sounds[name].src, m.sounds[name].volume)
  {
    if !m.enabled || name !in m.sounds then None
    else Some(Playback(m.sounds[name].src, m.sounds[name].volume))
  }

  /** `Math.max(0, Math.min(1, v))`. */
  function Clamp(v: real): (r: real)
    ensures 0.0 <= r <= 1.0
    ensures 0.0 <= v <= 1.0 ==> r == v
    ensures v < 0.0 ==> r == 0.0
    ensures v > 1.0 ==> r == 1.0
  {
    if v > 1.0 then 1.0 else if v < 0.0 then 0.0 else v
  }

  /** `setVolume`: every sound gets the clamped volume. */
  function SetVolume(m: Manager, v: real): (r: Manager)
    ensures r.sounds.Keys == m.sounds.Keys
    ensures forall n :: n in r.sounds ==> r.sounds[n] == m.sounds[n].(volume := Clamp(v))
    ensures r.enabled == m.enabled && r.initialized == m.initialized
  {
    m.(sounds := map n | n in m.sounds :: m.sounds[n].(volume := Clamp(v)))
  }

  /** Every volume lies in [0, 1] after any `setVolume`. */
  lemma VolumesInRange(m: Manager, v: real)
    ensures forall n :: n in SetVolume(m, v).sounds ==> 0.0 <= SetVolume(m, v).sounds[n].volume <= 1.0
  {
  }

  /** `toggle`: flip `enabled`, store the opposite as the mute flag, return the new state. */
  function Toggle(m: Manager, storage: map<string, string>): (r: (Manager, map<string, string>, bool))
    ensures r.2 == !m.enabled && r.0 == m.(enabled := r.2)
    ensures r.1 == storage[MutedKey := if r.2 then "false" else "true"]
    ensures StoredMuted(r.1) <==> !r.2
  {
    var newState := !m.enabled;
    (m.(enabled := newState), storage[MutedKey := if newState then "false" else "true"], newState)
  }

  /** Toggling twice restores `enabled` and leaves the stored flag matching it. */
  lemma ToggleTwice(m: Manager, storage: map<string, string>)
    ensures var t1 := Toggle(m, storage);
      var t2 := Toggle(t1.0, t1.1);
      t2.0 == m && (StoredMuted(t2.1) <==> !m.enabled)
  {
  }

  /** Re-reading the preferences after a toggle agrees with it, unless reduced motion is preferred. */
  lemma ToggleSurvivesReload(m: Manager, storage: map<string, string>)
    ensures var t := Toggle(m, storage);
      CheckPreferences(t.0, false, t.1).enabled == t.2
  {
  }

  /** `initialize`: the first call loads every sound once; later calls do nothing. */
  function Initialize(m: Manager): (r: Manager)
    ensures r.initialized
    ensures m.initialized ==> r == m
    ensures !m.initialized ==> r.sounds.Keys == m.sounds.Keys
    ensures !m.initialized ==> forall n :: n in r.sounds ==> r.sounds[n] == m.sounds[n].(loads := m.sounds[n].loads + 1)
  {
    if m.initialized then m
    else m.(sounds := map n | n in m.sounds :: m.sounds[n].(loads := m.sounds[n].loads + 1), initialized := true)
  }

  lemma InitializeIdempotent(m: Manager)
    ensures Initialize(Initialize(m)) == Initialize(m)
  {
  }

  /** The element a click reached through `closest(selector)`, if any. */
  datatype Target = Target(disabled: bool, noSound: bool, dataSound: Option<string>)

  /** The sound name a click asks for: none for a missing or disabled target or `data-no-sound`, otherwise `data-sound || soundName`. */
  function ClickSoundName(target: Option<Target>, soundName: string): (r: Option<string>)
    ensures r.None? <==> target.None? || target.value.disabled || target.value.noSound
    ensures r.Some? && target.value.dataSound.Some? && target.value.dataSound.value != "" ==> r.value == target.value.dataSound.value
    ensures r.Some? && (target.value.dataSound.None? || target.value.dataSound.value == "") ==> r.value == soundName
  {
    if target.None? || target.value.disabled || target.value.noSound then None
    else if target.value.dataSound.Some? && target.value.dataSound.value != "" then Some(target.value.dataSound.value)
    else Some(soundName)
  }

  /** The listener of `addClickSound`. */
  function OnClick(m: Manager, target: Option<Target>, soundName: string): (p: Option<Playback>)
    ensures p.Some? ==> m.enabled && ClickSoundName(target, soundName).Some?
    ensures p.Some? <==> ClickSoundName(target, soundName).Some? && m.enabled && ClickSoundName(target, soundName).value in m.sounds
  {
    match ClickSoundName(target, soundName)
    case None => None
    case Some(n) => Play(m, n)
  }

  /** The listener of `addElementClickSound`. */
  function OnElementClick(m: Manager, disabled: bool, soundName: string): (p: Option<Playback>)
    ensures p.Some? <==> !disabled && m.enabled && soundName in m.sounds
  {
    if disabled then None else Play(m, soundName)
  }
}
