/**
 * The audio half of the podcast pipeline (src/audio_processing.py): speech
 * synthesis into a file, wrapping the narration with a spoken intro and outro,
 * and laying a looped, quieter music bed under it.
 *
 * A segment is a sequence of one-millisecond frames, since pydub measures and
 * slices audio in milliseconds; `+` is concatenation, `* n` repetition and
 * `[:n]` a prefix. Speech synthesis is an oracle, and the floating-point gain
 * and mixing of samples are parameters. The working directory is a map from
 * file name to content.
 */
module AudioProcessing {
  import opened Wrappers
  import opened Arithmetic

  /** One millisecond of sound. */
  datatype Frame = Frame(samples: seq<int>)

  type Segment = seq<Frame>

  /** Why an operation reports `False`. */
  datatype AudioError =
    | MissingFile(name: string)   // `from_mp3` on a path that does not exist
    | Undecodable(name: string)   // `from_mp3` on a file that is not valid MP3
    | ZeroDivision                // `len(main) // len(music)` with empty music

  /** Sample arithmetic: lowering a frame by some dB, and adding two frames. */
  datatype Dsp = Dsp(attenuate: (Frame, int) -> Frame, mix: (Frame, Frame) -> Frame)

  const DefaultVolumeReduction: int := 6

  // ---------------------------------------------------------------------------
  // Segment operations
  // ---------------------------------------------------------------------------

  /** `segment * n`. */
  function Repeat(s: Segment, n: nat): (r: Segment)
    ensures |r| == n * |s|
  {
    if n == 0 then [] else Repeat(s, n - 1) + s
  }

  /** The repetition is `n` copies long and frame `i` is frame `i mod |s|` of the original. */
  lemma {:induction false} RepeatAt(s: Segment, n: nat)
    ensures |Repeat(s, n)| == n * |s|
    ensures |s| > 0 ==> forall i :: 0 <= i < n * |s| ==> Repeat(s, n)[i] == s[i % |s|]
  {
    if n > 0 {
      RepeatAt(s, n - 1);
      var prev := Repeat(s, n - 1);
      assert n * |s| == (n - 1) * |s| + |s|;
      if |s| > 0 {
        forall i | 0 <= i < n * |s|
          ensures Repeat(s, n)[i] == s[i % |s|]
        {
          if i >= (n - 1) * |s| {
            ModOfOffset(i, n - 1, |s|);
          }
        }
      }
    }
  }

  /** `segment[:n]`. */
  function Take(s: Segment, n: nat): (r: Segment)
    ensures |r| == if n <= |s| then n else |s|
    ensures r == s[..|r|]
  {
    if n <= |s| then s[..n] else s
  }

  /** `segment - db`: every frame lowered by `db` decibels. */
  function Attenuate(s: Segment, db: int, dsp: Dsp): (r: Segment)
    ensures |r| == |s|
    ensures forall i :: 0 <= i < |s| ==> r[i] == dsp.attenuate(s[i], db)
  {
    seq(|s|, i requires 0 <= i < |s| => dsp.attenuate(s[i], db))
  }

  /** `base.overlay(top)`: as long as `base`; mixed where `top` has sound, `base` alone after it. */
  function Overlay(base: Segment, top: Segment, dsp: Dsp): (r: Segment)
    ensures |r| == |base|
    ensures forall i :: 0 <= i < |base| ==> r[i] == if i < |top| then dsp.mix(base[i], top[i]) else base[i]
  {
    seq(|base|, i requires 0 <= i < |base| => if i < |top| then dsp.mix(base[i], top[i]) else base[i])
  }

  /** Cutting twice keeps the shorter cut: `seg[:a][:b] == seg[:min(a, b)]`. */
  lemma TakeTake(s: Segment, a: nat, b: nat)
    ensures Take(Take(s, a), b) == Take(s, if a <= b then a else b)
  {
  }

  lemma AttenuateConcat(x: Segment, y: Segment, db: int, dsp: Dsp)
    ensures Attenuate(x + y, db, dsp) == Attenuate(x, db, dsp) + Attenuate(y, db, dsp)
  {
  }

  /** Lowering a tiled segment is tiling the lowered segment. */
  lemma {:induction false} AttenuateRepeat(s: Segment, n: nat, db: int, dsp: Dsp)
    ensures Attenuate(Repeat(s, n), db, dsp) == Repeat(Attenuate(s, db, dsp), n)
  {
    if n > 0 {
      AttenuateRepeat(s, n - 1, db, dsp);
      AttenuateConcat(Repeat(s, n - 1), s, db, dsp);
    }
  }

  /** Lowering a cut segment is cutting the lowered segment. */
  lemma AttenuateTake(s: Segment, n: nat, db: int, dsp: Dsp)
    ensures Attenuate(Take(s, n), db, dsp) == Take(Attenuate(s, db, dsp), n)
  {
  }

  /** Overlaying only uses as much of the top segment as the base is long. */
  lemma OverlayIgnoresTail(base: Segment, top: Segment, dsp: Dsp)
    requires |top| >= |base|
    ensures Overlay(base, top, dsp) == Overlay(base, Take(top, |base|), dsp)
  {
    var cut := Take(top, |base|);
    assert forall i :: 0 <= i < |base| ==> cut[i] == top[i];
  }

  // ---------------------------------------------------------------------------
  // Background music
  // ---------------------------------------------------------------------------

  /** Music shorter than the main track is tiled enough whole times to cover it. */
  lemma TiledCoversMain(mainLength: nat, music: Segment)
    requires 0 < |music| < mainLength
    ensures |Repeat(music, mainLength / |music| + 1)| == |music| * (mainLength / |music| + 1)
    ensures |music| * (mainLength / |music| + 1) >= mainLength
  {
    var q := mainLength / |music|;
    RepeatAt(music, q + 1);
    assert mainLength == q * |music| + mainLength % |music|;
    assert |music| * (q + 1) == q * |music| + |music|;
  }

  /**
   * Lines 66-68 of `add_background_music`: tile the music when it is shorter
   * than the main track, then cut it to the main track's length.
   */
  function BackgroundBed(mainLength: nat, music: Segment): (r: Result<Segment, AudioError>)
    ensures r.Success? <==> |music| > 0 || mainLength == 0
    ensures r.Failure? ==> r.error == ZeroDivision
    ensures r.Success? ==> |r.value| == mainLength
    ensures |music| >= mainLength ==> r == Success(music[..mainLength])
  {
    if |music| < mainLength then
      if |music| == 0 then Failure(ZeroDivision)
      else
        TiledCoversMain(mainLength, music);
        Success(Take(Repeat(music, mainLength / |music| + 1), mainLength))
    else Success(Take(music, mainLength))
  }

  /** The bed is the music played in a loop for exactly the main track's length. */
  lemma BedIsLoopedMusic(mainLength: nat, music: Segment)
    requires |music| > 0 || mainLength == 0
    ensures BackgroundBed(mainLength, music).Success?
    ensures forall i :: 0 <= i < mainLength ==> BackgroundBed(mainLength, music).value[i] == music[i % |music|]
  {
    var bed := BackgroundBed(mainLength, music).value;
    if mainLength == 0 {
    } else if |music| < mainLength {
      var n := mainLength / |music| + 1;
      TiledCoversMain(mainLength, music);
      RepeatAt(music, n);
      assert forall i :: 0 <= i < mainLength ==> bed[i] == Repeat(music, n)[i];
    } else {
      forall i | 0 <= i < mainLength
        ensures bed[i] == music[i % |music|]
      {
        ModOfOffset(i, 0, |music|);
      }
    }
  }

  /**
   * Lowering the volume before or after the tile-and-cut step gives the same
   * bed: `(music * q)[:n] - db == ((music - db) * q)[:n]`.
   */
  lemma LoweredBed(mainLength: nat, music: Segment, db: int, dsp: Dsp)
    requires |music| > 0 || mainLength == 0
    ensures BackgroundBed(mainLength, music).Success?
    ensures BackgroundBed(mainLength, Attenuate(music, db, dsp))
      == Success(Attenuate(BackgroundBed(mainLength, music).value, db, dsp))
  {
    var lowered := Attenuate(music, db, dsp);
    if |music| < mainLength {
      var q := mainLength / |music| + 1;
      AttenuateRepeat(music, q, db, dsp);
      AttenuateTake(Repeat(music, q), mainLength, db, dsp);
    } else {
      AttenuateTake(music, mainLength, db, dsp);
    }
  }

  /**
   * The mixing part of `add_background_music`: the looped bed, lowered by
   * `volumeReduction` dB, overlaid on the main track. Empty music under a
   * non-empty main track divides by zero.
   */
  function MixWithMusic(main: Segment, music: Segment, volumeReduction: int, dsp: Dsp): (r: Result<Segment, AudioError>)
    ensures r.Success? <==> |music| > 0 || |main| == 0
    ensures r.Failure? ==> r.error == ZeroDivision
    ensures r.Success? ==> |r.value| == |main|
    ensures r.Success? ==> forall i :: 0 <= i < |main| ==>
      r.value[i] == dsp.mix(main[i], dsp.attenuate(music[i % |music|], volumeReduction))
  {
    match BackgroundBed(|main|, music)
    case Failure(e) => Failure(e)
    case Success(bed) =>
      BedIsLoopedMusic(|main|, music);
      Success(Overlay(main, Attenuate(bed, volumeReduction, dsp), dsp))
  }

  // ---------------------------------------------------------------------------
  // Files and speech synthesis
  // ---------------------------------------------------------------------------

  /** What a file on disk holds. */
  datatype FileContent = Mp3(audio: Segment) | Corrupt

  /**
   * What gTTS did for one `save` call: the file was written, or an exception
   * was raised, possibly after the output file had already been opened.
   */
  datatype Speech = Saved(audio: Segment) | Failed(partialFile: bool)

  /**
   * The speech service, asked with the text, the language code and the file
   * to write. Each call of the source writes a different file, so the calls
   * succeed or fail independently of one another.
   */
  type Tts = (string, string, string) -> Speech

  const IntroPath: string := "intro.mp3"
  const OutroPath: string := "outro.mp3"
  const DefaultLang: string := "en"

  /** `AudioSegment.from_mp3(name)`. */
  function Load(files: map<string, FileContent>, name: string): (r: Result<Segment, AudioError>)
    ensures r.Success? <==> name in files && files[name].Mp3?
    ensures r.Success? ==> r.value == files[name].audio
    ensures r.Failure? ==> r.error == (if name in files then Undecodable(name) else MissingFile(name))
  {
    if name !in files then Failure(MissingFile(name))
    else match files[name]
      case Mp3(audio) => Success(audio)
      case Corrupt => Failure(Undecodable(name))
  }

  /** The directory after `text_to_speech` wrote (or failed to write) `name`. */
  function AfterSpeech(files: map<string, FileContent>, name: string, outcome: Speech): (r: map<string, FileContent>)
    ensures r.Keys <= files.Keys + {name}
    ensures name in r <==> name in files || outcome != Failed(false)
  {
    match outcome
    case Saved(audio) => files[name := Mp3(audio)]
    case Failed(partialFile) => if partialFile then files[name := Corrupt] else files
  }

  /**
   * Loading a file right after speaking into it gives the speech back; a failed
   * synthesis that left a partial file makes the load fail; other files load as before.
   */
  lemma LoadAfterSpeech(files: map<string, FileContent>, name: string, outcome: Speech, other: string)
    ensures outcome.Saved? ==> Load(AfterSpeech(files, name, outcome), name) == Success(outcome.audio)
    ensures outcome == Failed(true) ==> Load(AfterSpeech(files, name, outcome), name) == Failure(Undecodable(name))
    ensures other != name ==> Load(AfterSpeech(files, name, outcome), other) == Load(files, other)
  {
  }

  /** The audio a synthesis step contributes: what was spoken, or nothing. */
  function Spoken(outcome: Speech): (r: Segment)
    ensures outcome.Failed? ==> |r| == 0
  {
    if outcome.Saved? then outcome.audio else []
  }

  /** Files other than `a`, `b` and `c` are as they were. */
  ghost predicate OthersUnchanged(before: map<string, FileContent>, after: map<string, FileContent>, a: string, b: string, c: string)
  {
    forall n :: n != a && n != b && n != c ==>
      (n in after <==> n in before) && (n in after ==> after[n] == before[n])
  }

  /**
   * `add_audio_intro_outro` as a function of the directory: whether it reports
   * success, and the directory it leaves behind.
   */
  function IntroOutro(files: map<string, FileContent>, mainPath: string, introText: string,
                      outroText: string, outputPath: string, tts: Tts): (r: (bool, map<string, FileContent>))
    ensures r.0 <==> Load(AfterSpeech(AfterSpeech(files, IntroPath, tts(introText, DefaultLang, IntroPath)),
                                      OutroPath, tts(outroText, DefaultLang, OutroPath)), mainPath).Success?
    ensures r.0 ==> IntroPath !in r.1 && OutroPath !in r.1
    ensures r.0 && outputPath != IntroPath && outputPath != OutroPath ==>
      var main := Load(AfterSpeech(AfterSpeech(files, IntroPath, tts(introText, DefaultLang, IntroPath)),
                                   OutroPath, tts(outroText, DefaultLang, OutroPath)), mainPath).value;
      outputPath in r.1
      && r.1[outputPath] == Mp3(Spoken(tts(introText, DefaultLang, IntroPath)) + main + Spoken(tts(outroText, DefaultLang, OutroPath)))
    ensures OthersUnchanged(files, r.1, IntroPath, OutroPath, outputPath)
    ensures !r.0 ==> OthersUnchanged(files, r.1, IntroPath, OutroPath, IntroPath)
  {
    var introSpeech := tts(introText, DefaultLang, IntroPath);
    var afterIntro := AfterSpeech(files, IntroPath, introSpeech);
    var intro := if introSpeech.Saved? then Load(afterIntro, IntroPath) else Success([]);
    if intro.Failure? then (false, afterIntro)
    else
      var outroSpeech := tts(outroText, DefaultLang, OutroPath);
      var afterOutro := AfterSpeech(afterIntro, OutroPath, outroSpeech);
      var outro := if outroSpeech.Saved? then Load(afterOutro, OutroPath) else Success([]);
      if outro.Failure? then (false, afterOutro)
      else
        match Load(afterOutro, mainPath)
        case Failure(_) => (false, afterOutro)
        case Success(main) =>
          var exported := afterOutro[outputPath := Mp3(intro.value + main + outro.value)];
          (true, exported - {IntroPath, OutroPath})
  }

  /** The working directory the pipeline reads and writes. */
  class FileSystem {
    var files: map<string, FileContent>

    constructor (initial: map<string, FileContent>)
      ensures files == initial
    {
      files := initial;
    }

    /** `text_to_speech`: `True` exactly when synthesis and saving succeed; never raises. */
    method TextToSpeech(text: string, outputFilename: string, lang: string, tts: Tts) returns (ok: bool)
      modifies this
      ensures ok <==> tts(text, lang, outputFilename).Saved?
      ensures files == AfterSpeech(old(files), outputFilename, tts(text, lang, outputFilename))
    {
      var outcome := tts(text, lang, outputFilename);
      match outcome
      case Saved(audio) =>
        files := files[outputFilename := Mp3(audio)];
        ok := true;
      case Failed(partialFile) =>
        if partialFile {
          files := files[outputFilename := Corrupt];
        }
        ok := false;
    }

    /**
     * `add_audio_intro_outro`: speak the intro and outro into temporary files
     * (an empty segment stands in for a part that could not be spoken), export
     * intro + main + outro, then remove the temporary files.
     */
    method AddAudioIntroOutro(mainPath: string, introText: string, outroText: string,
                              outputPath: string, tts: Tts) returns (ok: bool)
      modifies this
      ensures (ok, files) == IntroOutro(old(files), mainPath, introText, outroText, outputPath, tts)
    {
      var introAudio: Segment;
      var spoke := TextToSpeech(introText, IntroPath, DefaultLang, tts);
      if !spoke {
        introAudio := [];
      } else {
        var loaded := Load(files, IntroPath);
        if loaded.Failure? {
          return false;
        }
        introAudio := loaded.value;
      }

      var outroAudio: Segment;
      spoke := TextToSpeech(outroText, OutroPath, DefaultLang, tts);
      if !spoke {
        outroAudio := [];
      } else {
        var loaded := Load(files, OutroPath);
        if loaded.Failure? {
          return false;
        }
        outroAudio := loaded.value;
      }

      var mainAudio := Load(files, mainPath);
      if mainAudio.Failure? {
        return false;
      }

      var finalAudio := introAudio + mainAudio.value + outroAudio;
      files := files[outputPath := Mp3(finalAudio)];
      ghost var exported := files;

      if IntroPath in files {
        files := files - {IntroPath};
      }
      if OutroPath in files {
        files := files - {OutroPath};
      }
      assert files == exported - {IntroPath, OutroPath};
      return true;
    }

    /**
     * `add_background_music`: load both tracks, mix the looped, lowered music
     * under the main track and export the result; `False` on any failure, with
     * nothing written.
     */
    method AddBackgroundMusic(mainPath: string, musicPath: string, outputPath: string,
                              dsp: Dsp, volumeReduction: int := DefaultVolumeReduction) returns (ok: bool)
      modifies this
      ensures ok <==> Load(old(files), mainPath).Success? && Load(old(files), musicPath).Success?
                      && (|Load(old(files), musicPath).value| > 0 || |Load(old(files), mainPath).value| == 0)
      ensures ok ==> files == old(files)[outputPath :=
        Mp3(MixWithMusic(Load(old(files), mainPath).value, Load(old(files), musicPath).value, volumeReduction, dsp).value)]
      ensures !ok ==> files == old(files)
    {
      var mainAudio := Load(files, mainPath);
      if mainAudio.Failure? {
        return false;
      }
      var music := Load(files, musicPath);
      if music.Failure? {
        return false;
      }
      var combined := MixWithMusic(mainAudio.value, music.value, volumeReduction, dsp);
      if combined.Failure? {
        return false;
      }
      files := files[outputPath := Mp3(combined.value)];
      return true;
    }
  }
}
