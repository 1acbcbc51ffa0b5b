/** The file handling shared by the three denoisers (spectral subtraction,
    Wiener filtering, spectral gating): the WAV name `convert_to_wav` picks,
    the processed output, the spectrogram images and the converted-back copy.
    The signal processing in between is not modelled; each script differs
    only in its prefixes and image names. */
module Denoisers {
  import opened Wrappers
  import opened Text
  import PosixPath

  /** `input_file.split('.')[-1].lower()`. */
  function Extension(input: string): string
  {
    Lower(AfterLast(input, '.'))
  }

  /** `file_format in ['mp3', 'm4a']`. */
  predicate Convertible(ext: string)
  {
    ext == "mp3" || ext == "m4a"
  }

  /** `convert_to_wav`: for an mp3 or m4a extension, every occurrence of
      "." + ext in the whole path becomes ".wav"; any other input is
      returned unchanged. */
  function ConvertToWav(input: string): string
  {
    var ext := Extension(input);
    if Convertible(ext) then ReplaceAll(input, "." + ext, ".wav") else input
  }

  /** The WAV name differs from the input exactly when the extension is mp3
      or m4a and "." + ext occurs verbatim in the input; so an upper-case
      suffix, whose lowered extension does not occur, is left alone. */
  lemma ConvertToWavChangesIff(input: string)
    ensures ConvertToWav(input) != input <==>
      Convertible(Extension(input)) && Occurs(input, "." + Extension(input))
  {
    var ext := Extension(input);
    if Convertible(ext) {
      assert ("." + ext)[1] == 'm' != ".wav"[1];
      ReplaceAllUnchangedIff(input, "." + ext, ".wav");
    }
  }

  /** An occurrence of "." + ext (ext free of dots) in `stem + "." + ext`
      that starts inside `stem` lies wholly inside it. */
  lemma DotSuffixOnlyAtEnd(stem: string, ext: string)
    requires '.' !in ext
    requires !Occurs(stem, "." + ext)
    ensures forall i: nat :: i < |stem| ==> !OccursAt(stem + ("." + ext), "." + ext, i)
  {
    var p := "." + ext;
    var s := stem + p;
    forall i: nat | i < |stem| ensures !OccursAt(s, p, i) {
      if i + |p| <= |stem| {
        assert !OccursAt(stem, p, i);
        assert s[i..i + |p|] == stem[i..i + |p|];
      } else if i + |p| <= |s| {
        var j := |stem| - i;
        assert s[i..i + |p|][j] == '.';
        assert p[j] == ext[j - 1];
      }
    }
  }

  /** The extension of `stem + "." + ext`, for `ext` free of dots, is `ext` lowered. */
  lemma ExtensionOfSuffix(stem: string, ext: string)
    requires '.' !in ext
    ensures Extension(stem + "." + ext) == Lower(ext)
  {
    AfterLastAppend(stem + ".", ext, '.');
    assert AfterLast(stem + ".", '.') == "";
    assert stem + "." + ext == (stem + ".") + ext;
  }

  /** A lower-case mp3 or m4a name whose stem does not already contain the
      suffix converts to the stem with ".wav". */
  lemma LowerCaseSuffixConverted(stem: string, ext: string)
    requires Convertible(ext)
    requires !Occurs(stem, "." + ext)
    ensures Extension(stem + "." + ext) == ext
    ensures ConvertToWav(stem + "." + ext) == stem + ".wav"
  {
    var p := "." + ext;
    assert stem + "." + ext == stem + p;
    ExtensionOfSuffix(stem, ext);
    assert Lower(ext) == ext;
    DotSuffixOnlyAtEnd(stem, ext);
    ReplaceSoleSuffix(stem, p, ".wav");
  }

  /** The lowered pattern ".mp3" does not occur in `stem + ".MP3"` when it
      does not occur in `stem`. */
  lemma UpperCaseSuffixHasNoMatch(stem: string)
    requires !Occurs(stem, ".mp3")
    ensures !Occurs(stem + ".MP3", ".mp3")
  {
    var s := stem + ".MP3";
    forall i: nat | i <= |s| ensures !OccursAt(s, ".mp3", i) {
      if i + 4 <= |stem| {
        assert !OccursAt(stem, ".mp3", i);
        assert s[i..i + 4] == stem[i..i + 4];
      } else if i < |stem| {
        var j := |stem| - i;
        assert s[i..i + 4][j] == '.' != ".mp3"[j];
      } else if i == |stem| {
        assert s[i..i + 4][1] == 'M' != ".mp3"[1];
      } else {
        assert i + 4 > |s|;
      }
    }
  }

  /** An upper-case ".MP3" is lowered to "mp3" for the test but the lowered
      pattern ".mp3" does not occur, so the name comes back unchanged and
      no converted-back copy will be written. */
  lemma UpperCaseSuffixKept(stem: string)
    requires !Occurs(stem, ".mp3")
    ensures Extension(stem + ".MP3") == "mp3"
    ensures ConvertToWav(stem + ".MP3") == stem + ".MP3"
  {
    ExtensionOfSuffix(stem, "MP3");
    assert stem + "." + "MP3" == stem + ".MP3";
    assert Lower("MP3") == "mp3";
    UpperCaseSuffixHasNoMatch(stem);
    assert "." + "mp3" == ".mp3";
    assert ".wav"[1] != ".mp3"[1];
    ReplaceAllUnchangedIff(stem + ".MP3", ".mp3", ".wav");
  }

  /** Both ".ext" occurrences of `a + ".ext" + b + ".ext" + c` become ".wav"
      when no other occurrence exists. */
  lemma ReplaceDotExtTwice(a: string, b: string, c: string, ext: string)
    requires Convertible(ext)
    requires !Occurs(a, "." + ext) && !Occurs(b, "." + ext) && !Occurs(c, "." + ext)
    ensures ReplaceAll(a + ("." + ext) + b + ("." + ext) + c, "." + ext, ".wav") == a + ".wav" + b + ".wav" + c
  {
    var p := "." + ext;
    assert p[1] == 'm' != ".wav"[1];
    ReplaceAllUnchangedIff(c, p, ".wav");
    DotSuffixOnlyAtEnd(a, ext);
    DotSuffixOnlyAtEnd(b, ext);
    ReplaceTwoOccurrences(a, b, c, p, ".wav");
  }

  /** Every occurrence is replaced, not only the suffix: a name holding
      "." + ext twice, apart from which it never holds it, gets ".wav" in
      both places. */
  lemma EveryOccurrenceReplaced(a: string, b: string, c: string, ext: string)
    requires Convertible(ext)
    requires Extension(a + "." + ext + b + "." + ext + c) == ext
    requires !Occurs(a, "." + ext) && !Occurs(b, "." + ext) && !Occurs(c, "." + ext)
    ensures ConvertToWav(a + "." + ext + b + "." + ext + c) == a + ".wav" + b + ".wav" + c
  {
    var s := a + "." + ext + b + "." + ext + c;
    assert s == a + ("." + ext) + b + ("." + ext) + c;
    ReplaceDotExtTwice(a, b, c, ext);
  }

  /** The three denoising scripts. */
  datatype Denoiser = SpectralSubtraction | WienerFiltering | SpectralGating

  /** Prefix of the processed WAV. */
  function OutputPrefix(d: Denoiser): string
  {
    match d
    case SpectralSubtraction => "processed_"
    case WienerFiltering => "wiener_filtered_"
    case SpectralGating => "spectral_gating_"
  }

  /** Prefix of the copy converted back to mp3/m4a (spelling as written). */
  function ConvertedPrefix(d: Denoiser): string
  {
    match d
    case SpectralSubtraction => "sepctral_subtraction_"
    case WienerFiltering => "wiener_filtered_"
    case SpectralGating => "processed_"
  }

  /** What follows the stem in each image file name, in the order saved. */
  function ImageSuffixes(d: Denoiser): seq<string>
  {
    match d
    case SpectralSubtraction => ["_original_spectrogram.png", "_processed_spectrogram.png", "_overlay_waveform.png"]
    case WienerFiltering => ["_original_spectrogram.png", "_filtered_spectrogram.png", "_comparison.png"]
    case SpectralGating => ["_spectrograms.png"]
  }

  lemma SpectralSubtractionPartsSeparatorFree()
    ensures PosixPath.Sep !in "processed_" && PosixPath.Sep !in "sepctral_subtraction_"
    ensures PosixPath.Sep !in "_original_spectrogram.png" && PosixPath.Sep !in "_processed_spectrogram.png"
    ensures PosixPath.Sep !in "_overlay_waveform.png"
  {
  }

  lemma WienerFilteringPartsSeparatorFree()
    ensures PosixPath.Sep !in "wiener_filtered_"
    ensures PosixPath.Sep !in "_original_spectrogram.png" && PosixPath.Sep !in "_filtered_spectrogram.png"
    ensures PosixPath.Sep !in "_comparison.png"
  {
  }

  lemma SpectralGatingPartsSeparatorFree()
    ensures PosixPath.Sep !in "spectral_gating_" && PosixPath.Sep !in "processed_"
    ensures PosixPath.Sep !in "_spectrograms.png"
  {
  }

  /** No prefix or image suffix holds a path separator. */
  lemma NamePartsSeparatorFree(d: Denoiser)
    ensures PosixPath.Sep !in OutputPrefix(d) && PosixPath.Sep !in ConvertedPrefix(d)
    ensures forall k :: 0 <= k < |ImageSuffixes(d)| ==> PosixPath.Sep !in ImageSuffixes(d)[k]
  {
    match d
    case SpectralSubtraction => SpectralSubtractionPartsSeparatorFree();
    case WienerFiltering => WienerFilteringPartsSeparatorFree();
    case SpectralGating => SpectralGatingPartsSeparatorFree();
  }

  /** The files one denoising run names: the WAV it reads, the WAV that
      `convert_to_wav` exports (for an mp3 or m4a input only), the processed
      output, the images and the converted-back copy. */
  datatype Outputs = Outputs(wav: string, exported: Option<string>, processed: string, images: seq<string>,
                             convertedBack: Option<string>)

  /** `save_converted_format`: a copy named with the converted prefix and the
      original's base name, for an mp3 or m4a original only. */
  function SaveConvertedFormat(d: Denoiser, original: string, outDir: string): Option<string>
  {
    if Convertible(Extension(original))
    then Some(PosixPath.Join(outDir, ConvertedPrefix(d) + PosixPath.Basename(original)))
    else None
  }

  /** The image paths: the stem followed by each suffix, in the output directory. */
  function ImagePaths(outDir: string, stem: string, suffixes: seq<string>): seq<string>
  {
    seq(|suffixes|, k requires 0 <= k < |suffixes| => PosixPath.Join(outDir, stem + suffixes[k]))
  }

  /** Each image path's own name is the stem followed by its suffix. */
  lemma ImagePathNames(outDir: string, stem: string, suffixes: seq<string>)
    requires PosixPath.Sep !in stem
    requires forall k :: 0 <= k < |suffixes| ==> PosixPath.Sep !in suffixes[k]
    ensures |ImagePaths(outDir, stem, suffixes)| == |suffixes|
    ensures forall k :: 0 <= k < |suffixes| ==>
      PosixPath.Basename(ImagePaths(outDir, stem, suffixes)[k]) == stem + suffixes[k]
  {
    forall k | 0 <= k < |suffixes|
      ensures PosixPath.Basename(ImagePaths(outDir, stem, suffixes)[k]) == stem + suffixes[k]
    {
      PosixPath.BasenameOfJoin(outDir, stem + suffixes[k]);
    }
  }

  /** One denoising run: WAV name, the WAV export for an mp3 or m4a input,
      processed output, images named from the WAV's base name up to its first
      dot, and the converted-back copy when the WAV name differs from the input. */
  function Run(d: Denoiser, input: string, outDir: string): Outputs
  {
    var wav := ConvertToWav(input);
    Outputs(wav,
            if Convertible(Extension(input)) then Some(wav) else None,
            PosixPath.Join(outDir, OutputPrefix(d) + PosixPath.Basename(wav)),
            ImagePaths(outDir, BeforeFirst(PosixPath.Basename(wav), '.'), ImageSuffixes(d)),
            if input != wav then SaveConvertedFormat(d, input, outDir) else None)
  }

  /** The processed file sits in the output directory under the prefix and
      the WAV's base name. */
  lemma RunProcessedName(d: Denoiser, input: string, outDir: string)
    ensures PosixPath.Basename(Run(d, input, outDir).processed)
            == OutputPrefix(d) + PosixPath.Basename(Run(d, input, outDir).wav)
  {
    var name := OutputPrefix(d) + PosixPath.Basename(ConvertToWav(input));
    NamePartsSeparatorFree(d);
    assert Run(d, input, outDir).processed == PosixPath.Join(outDir, name);
    PosixPath.BasenameOfJoin(outDir, name);
  }

  /** Each image is named from the WAV's base name up to its first dot,
      followed by the image's suffix. */
  lemma RunImageNames(d: Denoiser, input: string, outDir: string)
    ensures |Run(d, input, outDir).images| == |ImageSuffixes(d)|
    ensures forall k :: 0 <= k < |ImageSuffixes(d)| ==>
      PosixPath.Basename(Run(d, input, outDir).images[k])
      == BeforeFirst(PosixPath.Basename(Run(d, input, outDir).wav), '.') + ImageSuffixes(d)[k]
  {
    var base := PosixPath.Basename(ConvertToWav(input));
    var stem := BeforeFirst(base, '.');
    assert PosixPath.Sep !in stem by {
      assert forall c :: c in stem ==> c in base;
    }
    NamePartsSeparatorFree(d);
    ImagePathNames(outDir, stem, ImageSuffixes(d));
  }

  /** A converted-back copy exists exactly when the input is an mp3 or m4a
      whose lowered suffix occurs in it, and it is named from the original's
      base name under the converted prefix. */
  lemma RunConvertedBack(d: Denoiser, input: string, outDir: string)
    ensures Run(d, input, outDir).convertedBack.Some? <==>
      Convertible(Extension(input)) && Occurs(input, "." + Extension(input))
    ensures Run(d, input, outDir).convertedBack.Some? ==>
      PosixPath.Basename(Run(d, input, outDir).convertedBack.value) == ConvertedPrefix(d) + PosixPath.Basename(input)
  {
    var wav := ConvertToWav(input);
    var name := ConvertedPrefix(d) + PosixPath.Basename(input);
    assert Run(d, input, outDir).convertedBack == if input != wav then SaveConvertedFormat(d, input, outDir) else None;
    ConvertToWavChangesIff(input);
    NamePartsSeparatorFree(d);
    PosixPath.BasenameOfJoin(outDir, name);
  }

  /** An input that is not mp3 or m4a keeps its name, is processed under
      the prefix and its own base name, and is not copied back. */
  lemma WavInputRun(d: Denoiser, input: string, outDir: string)
    requires !Convertible(Extension(input))
    ensures Run(d, input, outDir).wav == input
    ensures Run(d, input, outDir).convertedBack == None
    ensures PosixPath.Basename(Run(d, input, outDir).processed) == OutputPrefix(d) + PosixPath.Basename(input)
  {
    RunProcessedName(d, input, outDir);
    RunConvertedBack(d, input, outDir);
  }

  /** `convert_to_wav` exports a WAV exactly for an mp3 or m4a input, to the
      name it returns; when the lowered suffix does not occur that name is the
      input's own, so the input file is overwritten with WAV data. */
  lemma RunExported(d: Denoiser, input: string, outDir: string)
    ensures Run(d, input, outDir).exported.Some? <==> Convertible(Extension(input))
    ensures Run(d, input, outDir).exported.Some? ==> Run(d, input, outDir).exported.value == Run(d, input, outDir).wav
    ensures Run(d, input, outDir).exported.Some? && !Occurs(input, "." + Extension(input)) ==>
      Run(d, input, outDir).exported == Some(input)
  {
    ConvertToWavChangesIff(input);
  }

  /** An upper-case ".MP3" input is exported as WAV under its own name and
      is not converted back. */
  lemma UpperCaseInputOverwritten(d: Denoiser, stem: string, outDir: string)
    requires !Occurs(stem, ".mp3")
    ensures Run(d, stem + ".MP3", outDir).exported == Some(stem + ".MP3")
    ensures Run(d, stem + ".MP3", outDir).convertedBack == None
  {
    UpperCaseSuffixKept(stem);
  }

  /** A lower-case mp3/m4a input whose stem does not repeat the suffix is
      processed as stem + ".wav" and copied back under the converted prefix. */
  lemma MpegInputRun(d: Denoiser, stem: string, ext: string, outDir: string)
    requires Convertible(ext)
    requires !Occurs(stem, "." + ext)
    ensures var input := stem + "." + ext;
      && Run(d, input, outDir).wav == stem + ".wav"
      && Run(d, input, outDir).convertedBack
         == Some(PosixPath.Join(outDir, ConvertedPrefix(d) + PosixPath.Basename(input)))
  {
    var input := stem + "." + ext;
    LowerCaseSuffixConverted(stem, ext);
    assert (stem + ".wav")[|stem| + 1] == 'w' != input[|stem| + 1];
  }

  /** The names of a run, given a script's processed prefix, converted-back
      prefix and image suffixes: the processed file is the prefix and the
      WAV's base name; each image is the WAV's base name up to its first dot
      and the image's suffix; a converted-back copy exists exactly when the
      WAV name differs from the input and carries the input's base name. */
  predicate NamedBy(o: Outputs, input: string, outPrefix: string, backPrefix: string, suffixes: seq<string>)
  {
    var stem := BeforeFirst(PosixPath.Basename(o.wav), '.');
    && PosixPath.Basename(o.processed) == outPrefix + PosixPath.Basename(o.wav)
    && |o.images| == |suffixes|
    && (forall k :: 0 <= k < |o.images| ==> PosixPath.Basename(o.images[k]) == stem + suffixes[k])
    && (o.convertedBack.Some? <==> o.wav != input)
    && (o.convertedBack.Some? ==> PosixPath.Basename(o.convertedBack.value) == backPrefix + PosixPath.Basename(input))
  }

  /** The names one script produces, from its prefixes and image suffixes. */
  lemma ScriptNames(d: Denoiser, input: string, outDir: string)
    ensures NamedBy(Run(d, input, outDir), input, OutputPrefix(d), ConvertedPrefix(d), ImageSuffixes(d))
  {
    RunProcessedName(d, input, outDir);
    RunImageNames(d, input, outDir);
    RunConvertedBack(d, input, outDir);
    ConvertToWavChangesIff(input);
  }

  /** alg_spectralSubtraction.py: "processed_" output, three images, and a
      "sepctral_subtraction_" copy converted back. */
  lemma SpectralSubtractionNames(input: string, outDir: string)
    ensures NamedBy(Run(SpectralSubtraction, input, outDir), input, "processed_", "sepctral_subtraction_",
                    ["_original_spectrogram.png", "_processed_spectrogram.png", "_overlay_waveform.png"])
  {
    ScriptNames(SpectralSubtraction, input, outDir);
  }

  /** alg_wienerFiltering.py: "wiener_filtered_" output, three images, and a
      "wiener_filtered_" copy converted back. */
  lemma WienerFilteringNames(input: string, outDir: string)
    ensures NamedBy(Run(WienerFiltering, input, outDir), input, "wiener_filtered_", "wiener_filtered_",
                    ["_original_spectrogram.png", "_filtered_spectrogram.png", "_comparison.png"])
  {
    ScriptNames(WienerFiltering, input, outDir);
  }

  /** alg_spectralGating.py: "spectral_gating_" output, one combined image,
      and a "processed_" copy converted back. */
  lemma SpectralGatingNames(input: string, outDir: string)
    ensures NamedBy(Run(SpectralGating, input, outDir), input, "spectral_gating_", "processed_",
                    ["_spectrograms.png"])
  {
    ScriptNames(SpectralGating, input, outDir);
  }
}
