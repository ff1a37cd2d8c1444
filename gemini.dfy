/** `src/lib/gemini.ts`: the decisions the server makes around the
    generative-AI calls. Each call into the SDK is replaced by a value saying
    what the call did (`TextOutcome`, `ImageCall`, `VideoCall`,
    `DownloadOutcome`); random picks and `Date.now()` are parameters. */
module Gemini {
  import opened Wrappers
  import opened Text
  import Utils

  /** The two content types a prompt can ask for. */
  datatype Intent = Image | Video

  // ---------------------------------------------------------------------
  // callGeminiTextAPI
  // ---------------------------------------------------------------------

  /** What `generateContent` did: it returned a reply whose `text` is the
      given string (an absent `text` is written ""), or it threw. */
  datatype TextOutcome = TextReply(text: string) | TextThrew(error: string)

  /** The reply carries text that `result.text || prompt` keeps. */
  predicate HasText(outcome: TextOutcome)
  {
    outcome.TextReply? && outcome.text != ""
  }

  /** `callGeminiTextAPI(prompt)`: the model's text when it is non-empty,
      otherwise the very string that was sent; it never throws. */
  function CallGeminiTextApi(prompt: string, outcome: TextOutcome): (r: string)
    ensures HasText(outcome) ==> r == outcome.text
    ensures !HasText(outcome) ==> r == prompt
  {
    match outcome
    case TextReply(text) => if text != "" then text else prompt
    case TextThrew(_) => prompt
  }

  /** The line of every instruction that quotes the user's words. */
  function QuotedRequest(userPrompt: string): string
  {
    "User request: \"" + userPrompt + "\""
  }

  // ---------------------------------------------------------------------
  // analyzePromptIntent
  // ---------------------------------------------------------------------

  /** The word the decision looks for. */
  const VideoWord: string := "video"

  const IntentLead: string :=
    "You are an AI assistant that analyzes user prompts to determine if they want to generate an image or a "
  const IntentPreamble: string := IntentLead + VideoWord + ".\n\n"
  const IntentRest: string :=
    "\n\nAnalyze this prompt and respond with ONLY \"image\" or \"video\" based on what the user is asking for.\n\n" +
    "Guidelines:\n- default to image if the prompt is ambiguous\n" +
    "- only return \"video\" if the prompt is clearly about video generation(no matter which language the prompt is)\n\n" +
    "Respond with exactly one word: either \"image\" or \"video\""

  /** The classification instruction sent to the text model. */
  function IntentInstruction(userPrompt: string): string
  {
    IntentPreamble + "User prompt: \"" + userPrompt + "\"" + IntentRest
  }

  /** The instruction itself says "video", whatever the user wrote. */
  lemma IntentInstructionMentionsVideo(userPrompt: string)
    ensures Contains(Lower(IntentInstruction(userPrompt)), VideoWord)
  {
    ContainsFromOccurrence(VideoWord, VideoWord, 0);
    ContainsPrepend(IntentLead, VideoWord, VideoWord);
    ContainsAppend(IntentLead + VideoWord, ".\n\n", VideoWord);
    ContainsAppend(IntentPreamble, "User prompt: \"", VideoWord);
    ContainsAppend(IntentPreamble + "User prompt: \"", userPrompt, VideoWord);
    ContainsAppend(IntentPreamble + "User prompt: \"" + userPrompt, "\"", VideoWord);
    ContainsAppend(IntentPreamble + "User prompt: \"" + userPrompt + "\"", IntentRest, VideoWord);
    ContainsLowercaseWord(IntentInstruction(userPrompt), VideoWord);
  }

  /** Turns the model's reply into an intent: lower-case and trim, then
      "video" anywhere wins, then "image", and anything else is an image.
      Trimming never matters, because "video" holds no white space. */
  function DecideIntent(reply: string): (r: Intent)
    ensures r == Video <==> Contains(Lower(reply), VideoWord)
  {
    var cleanResult := Trim(Lower(reply));
    ContainsTrim(Lower(reply), VideoWord);
    if Contains(cleanResult, VideoWord) then Video
    else if Contains(cleanResult, "image") then Image
    else Image
  }

  /** `analyzePromptIntent(userPrompt)`. The text call never throws, so the
      keyword `catch` below it is never reached; a failed or empty reply
      echoes the instruction, which contains "video". */
  function AnalyzePromptIntent(userPrompt: string, outcome: TextOutcome): (r: Intent)
    ensures !HasText(outcome) ==> r == Video
    ensures HasText(outcome) ==> (r == Video <==> Contains(Lower(outcome.text), VideoWord))
  {
    IntentInstructionMentionsVideo(userPrompt);
    DecideIntent(CallGeminiTextApi(IntentInstruction(userPrompt), outcome))
  }

  /** The seven words of the `catch` fallback. */
  const FallbackKeywords: seq<string> :=
    ["video", "animation", "movie", "film", "animate", "motion", "moving"]

  /** The keyword fallback of `analyzePromptIntent`'s `catch`: a video
      exactly when one of the seven words occurs in the lower-cased prompt. */
  function KeywordFallback(userPrompt: string): (r: Intent)
    ensures r == Video <==>
      exists i :: 0 <= i < |FallbackKeywords| && Contains(Lower(userPrompt), FallbackKeywords[i])
  {
    if ContainsAny(Lower(userPrompt), FallbackKeywords) then Video else Image
  }

  /** The fallback words are the first seven of `isVideoRequest`'s words, so
      a fallback verdict of video is also a video request there. */
  lemma KeywordFallbackImpliesVideoRequest(userPrompt: string)
    requires KeywordFallback(userPrompt) == Video
    ensures Utils.IsVideoRequest(userPrompt)
  {
    assert FallbackKeywords == Utils.VideoKeywords[..7];
    var i :| 0 <= i < |FallbackKeywords| && Contains(Lower(userPrompt), FallbackKeywords[i]);
    assert Utils.VideoKeywords[i] == FallbackKeywords[i];
  }

  /** The converse fails: "clip" is a video keyword only in `isVideoRequest`. */
  lemma KeywordFallbackIsNarrower()
    ensures Utils.IsVideoRequest("clip")
    ensures KeywordFallback("clip") == Image
  {
    assert Lower("clip") == "clip";
    assert Utils.VideoKeywords[8] == "clip";
    ContainsFromOccurrence("clip", "clip", 0);
    forall i | 0 <= i < |FallbackKeywords|
      ensures !Contains("clip", FallbackKeywords[i])
    {
      var w := FallbackKeywords[i];
      ContainsNeedsRoom("clip", w);
      if |w| == 4 {
        assert w == "film";
        assert w[0] != "clip"[0];
        ContainsNeedsRoom("lip", w);
      }
    }
  }

  // ---------------------------------------------------------------------
  // Prompt enhancement
  // ---------------------------------------------------------------------

  const ImagePreamble: string :=
    "You are an expert at creating detailed image generation prompts. \n" +
    "  Convert this user request into a detailed, specific prompt for image generation:\n  \n  "
  const ImageRest: string :=
    "\n  \n  Create a detailed prompt that includes:\n" +
    "  - Visual style and aesthetic\n  - Composition and framing\n  - Lighting and colors\n" +
    "  - Any relevant artistic techniques\n  - High quality descriptors\n  \n" +
    "  Keep it concise but descriptive. Respond with just the enhanced prompt."

  const VideoPreamble: string :=
    "You are an expert at creating detailed video generation prompts.\n" +
    "  Convert this user request into a detailed, specific prompt for video generation:\n  \n  "
  const VideoRest: string :=
    "\n  \n  Create a detailed prompt that includes:\n" +
    "  - Scene description and setting\n  - Camera movements and angles\n" +
    "  - Animation style and motion\n  - Duration suggestions\n" +
    "  - Visual effects and transitions\n  - Mood and atmosphere\n  \n" +
    "  Keep it concise but descriptive. Respond with just the enhanced prompt."

  /** The image-enhancement instruction of `generateImagePrompt`. */
  function ImageInstruction(userPrompt: string): string
  {
    ImagePreamble + QuotedRequest(userPrompt) + ImageRest
  }

  /** The video-enhancement instruction of `generateVideoPrompt`. */
  function VideoInstruction(userPrompt: string): string
  {
    VideoPreamble + QuotedRequest(userPrompt) + VideoRest
  }

  /** The two instructions differ for every prompt (at "image"/"video" in
      their first line), so an echoed instruction shows which one was sent. */
  lemma InstructionsDiffer(userPrompt: string)
    ensures ImageInstruction(userPrompt) != VideoInstruction(userPrompt)
  {
    assert ImageInstruction(userPrompt)[39] == ImagePreamble[39] == 'i';
    assert VideoInstruction(userPrompt)[39] == VideoPreamble[39] == 'v';
  }

  /** `generateImagePrompt(userPrompt)`. */
  function GenerateImagePrompt(userPrompt: string, outcome: TextOutcome): (r: string)
    ensures HasText(outcome) ==> r == outcome.text
    ensures !HasText(outcome) ==> r == ImageInstruction(userPrompt)
  {
    CallGeminiTextApi(ImageInstruction(userPrompt), outcome)
  }

  /** `generateVideoPrompt(userPrompt)`. */
  function GenerateVideoPrompt(userPrompt: string, outcome: TextOutcome): (r: string)
    ensures HasText(outcome) ==> r == outcome.text
    ensures !HasText(outcome) ==> r == VideoInstruction(userPrompt)
  {
    CallGeminiTextApi(VideoInstruction(userPrompt), outcome)
  }

  /** `enhancePromptWithGemini(userPrompt, type)`: the image instruction is
      the one sent exactly when the type is image, which an echoed failure
      makes visible. */
  function EnhancePromptWithGemini(userPrompt: string, kind: Intent, outcome: TextOutcome): (r: string)
    ensures HasText(outcome) ==> r == outcome.text
    ensures !HasText(outcome) ==> (r == ImageInstruction(userPrompt) <==> kind == Image)
    ensures !HasText(outcome) ==> (r == VideoInstruction(userPrompt) <==> kind == Video)
  {
    InstructionsDiffer(userPrompt);
    match kind
    case Image => GenerateImagePrompt(userPrompt, outcome)
    case Video => GenerateVideoPrompt(userPrompt, outcome)
  }

  /** A failed enhancement is not the user's prompt: it is the whole
      instruction, longer than the prompt and quoting it. */
  lemma EnhanceFailureEchoesInstruction(userPrompt: string, kind: Intent, outcome: TextOutcome)
    requires !HasText(outcome)
    ensures Contains(EnhancePromptWithGemini(userPrompt, kind, outcome), QuotedRequest(userPrompt))
    ensures |EnhancePromptWithGemini(userPrompt, kind, outcome)| > |userPrompt|
  {
    var q := QuotedRequest(userPrompt);
    ContainsFromOccurrence(q, q, 0);
    if kind == Image {
      ContainsInfix(ImagePreamble, q, ImageRest, q);
    } else {
      ContainsInfix(VideoPreamble, q, VideoRest, q);
    }
  }

  // ---------------------------------------------------------------------
  // enhanceVideoPromptWithImages
  // ---------------------------------------------------------------------

  /** A canvas item handed in as a reference: its type and its description
      (absent when the item has none). */
  datatype ReferenceImage = ReferenceImage(kind: Intent, description: Option<string>)

  const DefaultDescription: string := "Generated image"

  /** `img.description || 'Generated image'`. */
  function DescriptionOf(img: ReferenceImage): string
  {
    match img.description
    case Some(d) => if d != "" then d else DefaultDescription
    case None => DefaultDescription
  }

  /** The line listing the reference image numbered `k`. */
  function ImageLine(k: nat, img: ReferenceImage): string
  {
    "Image " + Decimal(k) + ": " + DescriptionOf(img)
  }

  /** The `map` of the description builder: one line per image, numbered
      from 1 in list order. */
  function DescriptionLines(images: seq<ReferenceImage>): (lines: seq<string>)
    ensures |lines| == |images|
    ensures forall k :: 0 <= k < |images| ==> lines[k] == ImageLine(k + 1, images[k])
  {
    if images == [] then []
    else DescriptionLines(images[..|images| - 1]) + [ImageLine(|images|, images[|images| - 1])]
  }

  /** The lines joined with '\n'. */
  function DescriptionBlock(images: seq<ReferenceImage>): string
  {
    Join(DescriptionLines(images), '\n')
  }

  /** When no description holds a line break, cutting the block at line
      breaks gives back exactly one line per image. */
  lemma DescriptionBlockHasOneLinePerImage(images: seq<ReferenceImage>)
    requires |images| > 0
    requires forall k :: 0 <= k < |images| && images[k].description.Some? ==> '\n' !in images[k].description.value
    ensures Split(DescriptionBlock(images), '\n') == DescriptionLines(images)
    ensures |Split(DescriptionBlock(images), '\n')| == |images|
  {
    var lines := DescriptionLines(images);
    forall k | 0 <= k < |lines| ensures '\n' !in lines[k] {
      var d := Decimal(k + 1);
      assert forall j :: 0 <= j < |d| ==> d[j] != '\n';
      assert '\n' !in DescriptionOf(images[k]);
      assert lines[k] == "Image " + d + ": " + DescriptionOf(images[k]);
    }
    SplitJoin(lines, '\n');
  }

  const ContextPreamble: string :=
    "You are an expert at creating detailed video generation prompts. \n" +
    "  Convert this user request into a detailed, specific prompt for video generation, " +
    "incorporating the context from previously generated images.\n\n  "
  const ContextMiddle: string :=
    "\n\n  Previously generated images that should be considered for video context:\n  "
  const ContextRest: string :=
    "\n\n  Create a cohesive video prompt that:\n" +
    "  1. Fulfills the user's request for video generation\n" +
    "  2. Incorporates relevant visual elements, themes, or styles from the previously generated images\n" +
    "  3. Ensures smooth transitions and visual continuity if applicable\n" +
    "  4. Provides detailed descriptions of motion, lighting, and camera movements\n" +
    "  5. Maintains thematic consistency with the existing images\n\n" +
    "  Return only the enhanced video generation prompt without any additional explanation:"

  /** The context-aware instruction listing the reference images. */
  function ContextInstruction(userPrompt: string, images: seq<ReferenceImage>): string
  {
    ContextPreamble + QuotedRequest(userPrompt) + ContextMiddle + DescriptionBlock(images) + ContextRest
  }

  /** `enhanceVideoPromptWithImages(userPrompt, images)`, where `None` is a
      null or undefined list. */
  function EnhanceVideoPromptWithImages(userPrompt: string, images: Option<seq<ReferenceImage>>,
                                        outcome: TextOutcome): (r: string)
    ensures (images.None? || images.value == []) ==> r == GenerateVideoPrompt(userPrompt, outcome)
    ensures HasText(outcome) ==> r == outcome.text
    ensures !HasText(outcome) && images.Some? && images.value != [] ==>
      r == ContextInstruction(userPrompt, images.value)
  {
    if images.None? || |images.value| == 0 then GenerateVideoPrompt(userPrompt, outcome)
    else CallGeminiTextApi(ContextInstruction(userPrompt, images.value), outcome)
  }

  /** A failed context-aware enhancement still quotes the prompt and lists
      every reference image under its number. */
  lemma ContextFailureListsEveryImage(userPrompt: string, images: seq<ReferenceImage>,
                                      outcome: TextOutcome, k: nat)
    requires !HasText(outcome) && k < |images|
    ensures Contains(EnhanceVideoPromptWithImages(userPrompt, Some(images), outcome), ImageLine(k + 1, images[k]))
    ensures Contains(EnhanceVideoPromptWithImages(userPrompt, Some(images), outcome), QuotedRequest(userPrompt))
  {
    var q := QuotedRequest(userPrompt);
    var block := DescriptionBlock(images);
    var line := ImageLine(k + 1, images[k]);
    JoinContainsEach(DescriptionLines(images), '\n', k);
    ContainsPrepend(ContextPreamble + q + ContextMiddle, block, line);
    ContainsAppend(ContextPreamble + q + ContextMiddle + block, ContextRest, line);
    ContainsFromOccurrence(q, q, 0);
    ContainsPrepend(ContextPreamble, q, q);
    ContainsAppend(ContextPreamble + q, ContextMiddle, q);
    ContainsAppend(ContextPreamble + q + ContextMiddle, block, q);
    ContainsAppend(ContextPreamble + q + ContextMiddle + block, ContextRest, q);
  }

  // ---------------------------------------------------------------------
  // Images: callGeminiImageAPI and generateImage
  // ---------------------------------------------------------------------

  /** A generated result as the API routes return it. */
  datatype Media = Media(url: string, description: string)

  /** `generatedImage.image`, with its optional `imageBytes` (base64 text). */
  datatype ImagePayload = ImagePayload(imageBytes: Option<string>)
  datatype GeneratedImage = GeneratedImage(image: Option<ImagePayload>)

  /** What `generateImages` did: it returned a possibly absent list of
      generated images, or it threw. */
  datatype ImageCall = ImagesReturned(generatedImages: Option<seq<GeneratedImage>>)
                     | ImageCallThrew(error: string)

  const DataUrlPrefix: string := "data:image/png;base64,"
  const NoImagesError: string := "No images generated"
  const InvalidImageError: string := "Generated image data is invalid"

  /** The call returned at least one image. */
  predicate HasImages(call: ImageCall)
  {
    call.ImagesReturned? && call.generatedImages.Some? && |call.generatedImages.value| > 0
  }

  /** The first returned image carries non-empty bytes. */
  predicate FirstImageHasBytes(call: ImageCall)
  {
    HasImages(call) && call.generatedImages.value[0].image.Some? &&
    call.generatedImages.value[0].image.value.imageBytes.Some? &&
    call.generatedImages.value[0].image.value.imageBytes.value != ""
  }

  /** `callGeminiImageAPI(prompt)`: the first image as a PNG data URL with the
      prompt as description, or the error it throws. */
  function CallGeminiImageApi(prompt: string, call: ImageCall): (r: Result<Media>)
    ensures r.Ok? <==> FirstImageHasBytes(call)
    ensures r.Ok? ==> r.value.url == DataUrlPrefix + call.generatedImages.value[0].image.value.imageBytes.value
    ensures r.Ok? ==> r.value.description == prompt
    ensures call.ImagesReturned? && !HasImages(call) ==> r == Err(NoImagesError)
    ensures HasImages(call) && !FirstImageHasBytes(call) ==> r == Err(InvalidImageError)
    ensures call.ImageCallThrew? ==> r == Err(call.error)
  {
    match call
    case ImageCallThrew(error) => Err(error)
    case ImagesReturned(generatedImages) =>
      if generatedImages.Some? && |generatedImages.value| > 0 then
        var generatedImage := generatedImages.value[0];
        if generatedImage.image.Some? && generatedImage.image.value.imageBytes.Some?
           && generatedImage.image.value.imageBytes.value != "" then
          Ok(Media(DataUrlPrefix + generatedImage.image.value.imageBytes.value, prompt))
        else Err(InvalidImageError)
      else Err(NoImagesError)
  }

  const PlaceholderIds: seq<nat> := [1015, 1018, 1019, 1020, 1025, 1035, 1040, 1043, 1050, 1055]
  const PlaceholderDescription: string := "Error generating image. Showing placeholder."

  /** The placeholder image address for a picture id and a clock reading. */
  function PlaceholderUrl(id: nat, nowMs: nat): string
  {
    "https://picsum.photos/1024/768?random=" + Decimal(id) + "&t=" + Decimal(nowMs)
  }

  /** `generateImage(prompt)`, where `choice` is the index that
      `Math.floor(Math.random() * 10)` picked and `nowMs` is `Date.now()`.
      It never fails: an error becomes a placeholder picture. */
  function GenerateImage(prompt: string, call: ImageCall, choice: nat, nowMs: nat): (r: Media)
    requires choice < |PlaceholderIds|
    ensures CallGeminiImageApi(prompt, call).Ok? ==> r == CallGeminiImageApi(prompt, call).value
    ensures CallGeminiImageApi(prompt, call).Err? ==>
      r.description == PlaceholderDescription &&
      exists i :: 0 <= i < |PlaceholderIds| && r.url == PlaceholderUrl(PlaceholderIds[i], nowMs)
    ensures r.url != ""
  {
    match CallGeminiImageApi(prompt, call)
    case Ok(result) => result
    case Err(_) => Media(PlaceholderUrl(PlaceholderIds[choice], nowMs), PlaceholderDescription)
  }

  /** The address alone tells a generated picture from a placeholder: only
      a generated one is a data URL. */
  lemma GeneratedImageIffDataUrl(prompt: string, call: ImageCall, choice: nat, nowMs: nat)
    requires choice < |PlaceholderIds|
    ensures DataUrlPrefix <= GenerateImage(prompt, call, choice, nowMs).url <==> FirstImageHasBytes(call)
  {
    var r := GenerateImage(prompt, call, choice, nowMs);
    if !FirstImageHasBytes(call) {
      assert r.url[0] == 'h';
      assert DataUrlPrefix[0] == 'd';
    }
  }

  // ---------------------------------------------------------------------
  // Videos: callGeminiVideoAPI and generateVideoWithImages
  // ---------------------------------------------------------------------

  /** The SDK's handle for a generated video file. */
  datatype VideoFile = VideoFile(uri: string)
  datatype GeneratedVideo = GeneratedVideo(video: Option<VideoFile>)
  datatype VideoResponse = VideoResponse(generatedVideos: Option<seq<GeneratedVideo>>)

  /** What the generation and its polling did: the operation finished with a
      possibly absent response, or a call threw. */
  datatype VideoCall = OperationDone(response: Option<VideoResponse>) | VideoCallThrew(error: string)

  /** What `files.download` did. */
  datatype DownloadOutcome = Downloaded | DownloadThrew(error: string)

  const NoVideosError: string := "No videos were generated in the operation response"
  const MissingVideoError: string := "Generated video data is missing"
  const DefaultAppUrl: string := "http://localhost:3000"

  /** `process.env.NEXT_PUBLIC_APP_URL || 'http://localhost:3000'`, where an
      unset variable is written "". */
  function AppBase(appUrl: string): string
  {
    if appUrl != "" then appUrl else DefaultAppUrl
  }

  function VideoFileName(timestampMs: nat): string
  {
    "generated_video_" + Decimal(timestampMs) + ".mp4"
  }

  /** Where the video file is written. */
  function DownloadPath(timestampMs: nat): string
  {
    "public/videos/" + VideoFileName(timestampMs)
  }

  /** The address returned for the written file. */
  function VideoUrl(appUrl: string, timestampMs: nat): string
  {
    AppBase(appUrl) + "/videos/" + VideoFileName(timestampMs)
  }

  /** The operation finished with at least one generated video. */
  predicate HasVideos(call: VideoCall)
  {
    call.OperationDone? && call.response.Some? && call.response.value.generatedVideos.Some? &&
    |call.response.value.generatedVideos.value| > 0
  }

  /** The first generated video carries its file. */
  predicate FirstVideoPresent(call: VideoCall)
  {
    HasVideos(call) && call.response.value.generatedVideos.value[0].video.Some?
  }

  /** `callGeminiVideoAPI(prompt)` after the polling loop has seen the
      operation done; `timestampMs` is the `Date.now()` that names the file. */
  function CallGeminiVideoApi(prompt: string, call: VideoCall, download: DownloadOutcome,
                              timestampMs: nat, appUrl: string): (r: Result<Media>)
    ensures r.Ok? <==> FirstVideoPresent(call) && download.Downloaded?
    ensures r.Ok? ==> r.value == Media(VideoUrl(appUrl, timestampMs), prompt)
    ensures call.OperationDone? && !HasVideos(call) ==> r == Err(NoVideosError)
    ensures HasVideos(call) && !FirstVideoPresent(call) ==> r == Err(MissingVideoError)
    ensures call.VideoCallThrew? ==> r == Err(call.error)
    ensures FirstVideoPresent(call) && download.DownloadThrew? ==> r == Err(download.error)
  {
    match call
    case VideoCallThrew(error) => Err(error)
    case OperationDone(response) =>
      if response.None? || response.value.generatedVideos.None? || |response.value.generatedVideos.value| == 0 then
        Err(NoVideosError)
      else if response.value.generatedVideos.value[0].video.None? then
        Err(MissingVideoError)
      else
        match download
        case DownloadThrew(error) => Err(error)
        case Downloaded => Ok(Media(VideoUrl(appUrl, timestampMs), prompt))
  }

  /** The file written under `public/` is the one the returned address
      serves: the address is the base followed by the path below `public`. */
  lemma VideoUrlServesDownloadPath(appUrl: string, timestampMs: nat)
    ensures VideoUrl(appUrl, timestampMs) == AppBase(appUrl) + "/" + DownloadPath(timestampMs)[|"public/"|..]
  {
    var name := VideoFileName(timestampMs);
    assert DownloadPath(timestampMs)[7..] == "videos/" + name;
    assert AppBase(appUrl) + "/videos/" + name == AppBase(appUrl) + "/" + ("videos/" + name);
  }

  /** Different timestamps name different files, hence different addresses. */
  lemma VideoUrlsUnique(appUrl: string, ts1: nat, ts2: nat)
    requires ts1 != ts2
    ensures VideoUrl(appUrl, ts1) != VideoUrl(appUrl, ts2)
  {
    var p := AppBase(appUrl) + "/videos/" + "generated_video_";
    FramedDecimalsDiffer(p, ts1, ts2, ".mp4");
    assert VideoUrl(appUrl, ts1) == p + Decimal(ts1) + ".mp4";
    assert VideoUrl(appUrl, ts2) == p + Decimal(ts2) + ".mp4";
  }

  const SampleVideos: seq<string> := [
    "http://localhost:3000/videos/generated_video_1757842104402.mp4",
    "http://localhost:3000/videos/generated_video_1757842736723.mp4",
    "http://localhost:3000/videos/generated_video_1757843018326.mp4"
  ]

  /** The fallback description, reporting `count` reference images. */
  function FallbackVideoDescription(prompt: string, count: nat): string
  {
    "Generated fallback video for: " + prompt + " (using " + Decimal(count) + " reference images)"
  }

  /** `generateVideoWithImages(prompt, images)`, where `choice` is the index
      `Math.floor(Math.random() * 3)` picked. The images are only counted;
      the video call gets the prompt alone. It never fails: an error becomes
      a sample video. */
  function GenerateVideoWithImages(prompt: string, images: seq<ReferenceImage>, call: VideoCall,
                                   download: DownloadOutcome, timestampMs: nat, appUrl: string,
                                   choice: nat): (r: Media)
    requires choice < |SampleVideos|
    ensures CallGeminiVideoApi(prompt, call, download, timestampMs, appUrl).Ok? ==>
      r == CallGeminiVideoApi(prompt, call, download, timestampMs, appUrl).value
    ensures CallGeminiVideoApi(prompt, call, download, timestampMs, appUrl).Err? ==>
      r.url in SampleVideos && r.description == FallbackVideoDescription(prompt, |images|)
    ensures r.url != ""
  {
    match CallGeminiVideoApi(prompt, call, download, timestampMs, appUrl)
    case Ok(result) => result
    case Err(_) => Media(SampleVideos[choice], FallbackVideoDescription(prompt, |images|))
  }

  /** The reported count tells lists of different lengths apart. */
  lemma FallbackCountsDiffer(prompt: string, n: nat, m: nat)
    requires n != m
    ensures FallbackVideoDescription(prompt, n) != FallbackVideoDescription(prompt, m)
  {
    FramedDecimalsDiffer("Generated fallback video for: " + prompt + " (using ", n, m, " reference images)");
  }

  /** The count is `images.length`, not the number of image items: a list of
      one image and one video reports two. */
  lemma FallbackCountIsUnfiltered(prompt: string, img: ReferenceImage, vid: ReferenceImage,
                                  call: VideoCall, download: DownloadOutcome,
                                  timestampMs: nat, appUrl: string, choice: nat)
    requires img.kind == Image && vid.kind == Video && choice < |SampleVideos|
    requires CallGeminiVideoApi(prompt, call, download, timestampMs, appUrl).Err?
    ensures GenerateVideoWithImages(prompt, [img, vid], call, download, timestampMs, appUrl, choice).description
            == FallbackVideoDescription(prompt, 2)
    ensures GenerateVideoWithImages(prompt, [img, vid], call, download, timestampMs, appUrl, choice).description
            != FallbackVideoDescription(prompt, |[img]|)
  {
    FallbackCountsDiffer(prompt, 2, 1);
  }
}
