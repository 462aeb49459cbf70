/** Upload validation of the web front end (app.py): which file names are
    accepted as image and audio uploads, in which order a request's files are
    checked, and which names the accepted files are stored under. */
module Upload {

  const ImageExtensions: set<string> := {"png", "jpg", "jpeg"}
  const AudioExtensions: set<string> := {"mp3", "wav"}

  const UploadFolder: string := "uploads"
  const OutputFolder: string := "outputs"

  /** ASCII lower-casing of one character. */
  function LowerChar(ch: char): char {
    if 'A' <= ch <= 'Z' then (ch as int + 32) as char else ch
  }

  /** ASCII lower-casing of a string, character by character. */
  function Lower(s: string): string {
    seq(|s|, i requires 0 <= i < |s| => LowerChar(s[i]))
  }

  /** Position of the last '.' in s, -1 when there is none. */
  function LastDot(s: string): (k: int)
    ensures -1 <= k < |s|
    ensures k >= 0 ==> s[k] == '.'
    ensures forall j :: k < j < |s| ==> s[j] != '.'
  {
    if |s| == 0 then -1
    else if s[|s| - 1] == '.' then |s| - 1
    else LastDot(s[..|s| - 1])
  }

  /** filename.rsplit('.', 1)[1]: the text after the last '.'. */
  function Extension(s: string): (ext: string)
    requires '.' in s
    ensures '.' !in ext
    ensures |ext| < |s| && s == s[..|s| - |ext| - 1] + "." + ext
  {
    var k := LastDot(s);
    assert k >= 0 by {
      var j :| 0 <= j < |s| && s[j] == '.';
    }
    s[k + 1..]
  }

  /** allowed_file: there is a '.', and the lower-cased text after the last
      one is among the allowed extensions. */
  predicate AllowedFile(filename: string, allowed: set<string>) {
    '.' in filename && Lower(Extension(filename)) in allowed
  }

  // ---------------------------------------------------------------------------
  // Properties of allowed_file

  /** A name without a '.' is never allowed. */
  lemma NoDotNotAllowed(filename: string, allowed: set<string>)
    requires '.' !in filename
    ensures !AllowedFile(filename, allowed)
  {
  }

  /** The extension of head + "." + ext is ext whenever ext holds no '.':
      only the last dot counts, whatever the head contains. */
  lemma ExtensionAfterLastDot(head: string, ext: string)
    requires '.' !in ext
    ensures '.' in head + "." + ext
    ensures Extension(head + "." + ext) == ext
  {
    var s := head + "." + ext;
    assert s[|head|] == '.';
    assert forall j :: |head| < j < |s| ==> s[j] == ext[j - |head| - 1];
    var k := LastDot(s);
    assert k == |head|;
    assert s[k + 1..] == ext;
  }

  /** Acceptance of head + "." + ext depends only on the lower-cased ext. */
  lemma OnlyLastDotCounts(head: string, ext: string, allowed: set<string>)
    requires '.' !in ext
    ensures AllowedFile(head + "." + ext, allowed) <==> Lower(ext) in allowed
  {
    ExtensionAfterLastDot(head, ext);
  }

  /** A name ending in '.' has the empty extension, which neither set holds. */
  lemma TrailingDotNotAllowed(filename: string)
    requires |filename| > 0 && filename[|filename| - 1] == '.'
    ensures !AllowedFile(filename, ImageExtensions) && !AllowedFile(filename, AudioExtensions)
  {
    var head := filename[..|filename| - 1];
    assert filename == head + "." + "";
    ExtensionAfterLastDot(head, "");
    assert Lower("") == "";
  }

  lemma LowerKeepsDots(s: string)
    ensures |Lower(s)| == |s|
    ensures forall i :: 0 <= i < |s| ==> (Lower(s)[i] == '.' <==> s[i] == '.')
  {
  }

  lemma LowerIdempotent(s: string)
    ensures Lower(Lower(s)) == Lower(s)
  {
  }

  lemma LowerOfSuffix(s: string, k: nat)
    requires k <= |s|
    ensures Lower(s)[k..] == Lower(s[k..])
  {
  }

  /** Lower-casing a name first changes nothing: acceptance is case-insensitive. */
  lemma CaseInsensitive(filename: string, allowed: set<string>)
    ensures AllowedFile(Lower(filename), allowed) == AllowedFile(filename, allowed)
  {
    var low := Lower(filename);
    LowerKeepsDots(filename);
    if '.' in filename {
      var j :| 0 <= j < |filename| && filename[j] == '.';
      assert low[j] == '.';
      var k := LastDot(filename);
      var kl := LastDot(low);
      assert k >= 0 ==> low[k] == '.';
      assert kl >= 0 ==> filename[kl] == '.';
      assert kl == k;
      LowerOfSuffix(filename, k + 1);
      LowerIdempotent(filename[k + 1..]);
    } else {
      assert forall j :: 0 <= j < |low| ==> low[j] != '.';
    }
  }

  /** An upper-case extension is accepted. */
  lemma UpperCaseExtensionAccepted()
    ensures AllowedFile("A.PNG", ImageExtensions)
  {
    var ext := "PNG";
    assert "A.PNG" == "A" + "." + ext;
    OnlyLastDotCounts("A", ext, ImageExtensions);
    assert Lower(ext) == "png";
  }

  /** Of a doubled extension only the last one counts. */
  lemma DoubleExtensionUsesLast()
    ensures AllowedFile("x.png.mp3", AudioExtensions)
    ensures !AllowedFile("x.png.mp3", ImageExtensions)
  {
    var ext := "mp3";
    assert "x.png.mp3" == "x.png" + "." + ext;
    OnlyLastDotCounts("x.png", ext, AudioExtensions);
    OnlyLastDotCounts("x.png", ext, ImageExtensions);
    assert Lower(ext) == "mp3";
  }

  // ---------------------------------------------------------------------------
  // process_files

  /** Why a request is turned away (each answered with status 400). */
  datatype Rejection = MissingFile | NoFileSelected | UnsupportedType

  /** The names an accepted request's files are stored and produced under. */
  datatype StoredNames = StoredNames(
    imageFilename: string, audioFilename: string, outputFilename: string,
    imagePath: string, audioPath: string, outputPath: string, videoUrl: string)

  datatype Decision = Rejected(status: int, reason: Rejection) | Accepted(names: StoredNames)

  /** os.path.join(folder, name) for a folder name without a trailing '/'. */
  function Join(folder: string, name: string): string {
    if |name| > 0 && name[0] == '/' then name else folder + "/" + name
  }

  /** The stored names for the given unique id and lower-cased extensions. */
  function GeneratedNames(uniqueId: string, imageExt: string, audioExt: string): StoredNames {
    var imageFilename := uniqueId + "." + imageExt;
    var audioFilename := uniqueId + "." + audioExt;
    var outputFilename := uniqueId + ".mp4";
    StoredNames(imageFilename, audioFilename, outputFilename,
                Join(UploadFolder, imageFilename), Join(UploadFolder, audioFilename),
                Join(OutputFolder, outputFilename), "/download/" + outputFilename)
  }

  /** The validation sequence of process_files over the uploaded files (form
      field name to file name), up to the point where the files are saved. */
  function ProcessFiles(files: map<string, string>, uniqueId: string): (d: Decision)
    ensures d.Rejected? ==> d.status == 400
  {
    if "image" !in files || "audio" !in files then Rejected(400, MissingFile)
    else if files["image"] == "" || files["audio"] == "" then Rejected(400, NoFileSelected)
    else if !(AllowedFile(files["image"], ImageExtensions) && AllowedFile(files["audio"], AudioExtensions)) then
      Rejected(400, UnsupportedType)
    else
      Accepted(GeneratedNames(uniqueId, Lower(Extension(files["image"])), Lower(Extension(files["audio"]))))
  }

  /** The checks run in a fixed order, each answering only when the earlier
      ones passed; the files are saved exactly when all three pass. */
  lemma ValidationOrder(files: map<string, string>, uniqueId: string)
    ensures var d := ProcessFiles(files, uniqueId);
      var present := "image" in files && "audio" in files;
      var selected := present && files["image"] != "" && files["audio"] != "";
      var typed := selected && AllowedFile(files["image"], ImageExtensions) && AllowedFile(files["audio"], AudioExtensions);
      (d == Rejected(400, MissingFile) <==> !present) &&
      (d == Rejected(400, NoFileSelected) <==> present && !selected) &&
      (d == Rejected(400, UnsupportedType) <==> selected && !typed) &&
      (d.Accepted? <==> typed)
  {
  }

  /** A stored name keeps an allowed lower-case extension: it is read back as
      the same extension and passes the same check. */
  lemma StoredNameKeepsExtension(uniqueId: string, ext: string, allowed: set<string>)
    requires ext in allowed && '.' !in ext && Lower(ext) == ext
    ensures Extension(uniqueId + "." + ext) == ext
    ensures AllowedFile(uniqueId + "." + ext, allowed)
  {
    ExtensionAfterLastDot(uniqueId, ext);
  }

  /** The lower-cased extension of an accepted name is in its set, holds no
      '.' and is already lower-case. */
  lemma AcceptedExtension(filename: string, allowed: set<string>)
    requires AllowedFile(filename, allowed)
    ensures var ext := Lower(Extension(filename));
      ext in allowed && '.' !in ext && Lower(ext) == ext
  {
    LowerKeepsDots(Extension(filename));
    LowerIdempotent(Extension(filename));
  }

  /** No extension is both an image and an audio extension. */
  lemma ExtensionSetsDisjoint(imageExt: string, audioExt: string)
    requires imageExt in ImageExtensions && audioExt in AudioExtensions
    ensures imageExt != audioExt
  {
  }

  /** The stored names of an accepted request: both uploads share the unique
      id and keep their lower-cased extensions, so they pass the same check
      again and never collide; the output is the unique id with ".mp4". */
  lemma AcceptedNames(files: map<string, string>, uniqueId: string)
    requires ProcessFiles(files, uniqueId).Accepted?
    ensures var n := ProcessFiles(files, uniqueId).names;
      var imageExt := Lower(Extension(files["image"]));
      var audioExt := Lower(Extension(files["audio"]));
      n.imageFilename == uniqueId + "." + imageExt &&
      n.audioFilename == uniqueId + "." + audioExt &&
      n.outputFilename == uniqueId + ".mp4" &&
      Extension(n.imageFilename) == imageExt && Extension(n.audioFilename) == audioExt &&
      AllowedFile(n.imageFilename, ImageExtensions) && AllowedFile(n.audioFilename, AudioExtensions) &&
      n.imageFilename != n.audioFilename
  {
    var imageExt := Lower(Extension(files["image"]));
    var audioExt := Lower(Extension(files["audio"]));
    assert ProcessFiles(files, uniqueId).names == GeneratedNames(uniqueId, imageExt, audioExt);
    AcceptedExtension(files["image"], ImageExtensions);
    AcceptedExtension(files["audio"], AudioExtensions);
    StoredNameKeepsExtension(uniqueId, imageExt, ImageExtensions);
    StoredNameKeepsExtension(uniqueId, audioExt, AudioExtensions);
    ExtensionSetsDisjoint(imageExt, audioExt);
  }

  /** With a unique id that does not start with '/' (a uuid never does), the
      uploads are stored inside the upload folder, the video inside the output
      folder, and the download link names the video's file. */
  lemma StoredInFolders(files: map<string, string>, uniqueId: string)
    requires ProcessFiles(files, uniqueId).Accepted?
    requires |uniqueId| > 0 && uniqueId[0] != '/'
    ensures var n := ProcessFiles(files, uniqueId).names;
      n.imagePath == UploadFolder + "/" + n.imageFilename &&
      n.audioPath == UploadFolder + "/" + n.audioFilename &&
      n.outputPath == OutputFolder + "/" + n.outputFilename &&
      n.videoUrl == "/download/" + n.outputFilename
  {
    var n := ProcessFiles(files, uniqueId).names;
    assert n.imageFilename[0] == uniqueId[0];
    assert n.audioFilename[0] == uniqueId[0];
    assert n.outputFilename[0] == uniqueId[0];
  }
}
