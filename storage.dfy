/** Local file storage: the configuration read from the environment, upload
    validation, and the relative path a saved upload gets. The file system
    writes themselves are not modelled. */
module Storage {
  import opened Js

  const DefaultRoot := "./storage/uploads"
  const DefaultMaxSize := "10485760"
  /** "image/jpeg,image/png,image/webp,application/pdf" */
  const DefaultTypes := "image/jpeg" + "," + ("image/png" + "," + ("image/webp" + "," + "application/pdf"))

  /** STORAGE_PATH, MAX_FILE_SIZE (a parseInt result, so possibly NaN) and
      ALLOWED_TYPES. */
  datatype Config = Config(root: string, maxSize: Json, allowed: seq<string>)

  /** `process.env.X || d`: an unset or empty variable gives the default. */
  function EnvOr(env: Option<string>, d: string): string {
    if env.Some? && env.value != "" then env.value else d
  }

  function LoadConfig(path: Option<string>, maxSize: Option<string>, types: Option<string>): Config {
    Config(EnvOr(path, DefaultRoot), ParseIntAuto(EnvOr(maxSize, DefaultMaxSize)), Split(EnvOr(types, DefaultTypes), ','))
  }

  /** With no environment overrides: 10485760 bytes, and JPEG, PNG, WebP and
      PDF. */
  lemma DefaultConfig()
    ensures LoadConfig(None, None, None) ==
      Config("./storage/uploads", Num(10485760), ["image/jpeg", "image/png", "image/webp", "application/pdf"])
  {
    DefaultTypesSplit();
    DefaultMaxParsed();
  }

  lemma DefaultTypesSplit()
    ensures Split(DefaultTypes, ',') == ["image/jpeg", "image/png", "image/webp", "application/pdf"]
  {
    SplitFour("image/jpeg", "image/png", "image/webp", "application/pdf");
  }

  lemma DefaultMaxParsed()
    ensures ParseIntAuto(DefaultMaxSize) == Num(10485760)
  {
    DefaultMaxWritten();
    ParseIntAutoRoundTrip(10485760);
    assert IntToString(10485760) == DefaultMaxSize;
  }

  lemma DefaultMaxWritten()
    ensures NatToString(10485760) == DefaultMaxSize
  {
    NatToStringStep(1, 0);
    NatToStringStep(10, 4);
    NatToStringStep(104, 8);
    NatToStringStep(1048, 5);
    NatToStringStep(10485, 7);
    NatToStringStep(104857, 6);
    NatToStringStep(1048576, 0);
  }

  lemma SplitFour(a: string, b: string, c: string, d: string)
    requires ',' !in a && ',' !in b && ',' !in c && ',' !in d
    ensures Split(a + "," + (b + "," + (c + "," + d)), ',') == [a, b, c, d]
  {
    SplitPieces(a, b + "," + (c + "," + d));
    SplitPieces(b, c + "," + d);
    SplitPieces(c, d);
    SplitNoSeparator(d, ',');
  }

  lemma NatToStringStep(n: nat, d: nat)
    requires n >= 1 && d < 10
    ensures NatToString(10 * n + d) == NatToString(n) + [DigitChar(d)]
  {
  }

  /** Splitting `a,rest` for a piece `a` without commas. */
  lemma {:induction false} SplitPieces(a: string, rest: string)
    requires ',' !in a
    ensures Split(a + "," + rest, ',') == [a] + Split(rest, ',')
  {
    if a == [] {
      assert a + "," + rest == [','] + rest;
      assert ([','] + rest)[1..] == rest;
    } else {
      var s := a + "," + rest;
      assert s[0] == a[0] && s[1..] == a[1..] + "," + rest;
      SplitPieces(a[1..], rest);
      assert [a[0]] + a[1..] == a;
    }
  }

  /** The fields of a Multer upload the model uses. */
  datatype UploadedFile = UploadedFile(originalname: string, size: nat, mimetype: string)

  /** Why validateFile rejects a file. */
  datatype Rejection = TooLarge(max: int) | TypeNotAllowed(mimetype: string)

  /** `{ valid, error? }` */
  datatype Validation = Validation(valid: bool, error: Option<Rejection>)

  /** `file.size > MAX_FILE_SIZE`, which is false when the limit is NaN. */
  predicate Exceeds(file: UploadedFile, cfg: Config) {
    cfg.maxSize.Num? && file.size > cfg.maxSize.n
  }

  /** validateFile: the size is checked first, then the type. */
  function ValidateFile(file: UploadedFile, cfg: Config): (v: Validation)
    ensures v.valid <==> !Exceeds(file, cfg) && file.mimetype in cfg.allowed
    ensures v.valid <==> v.error.None?
    ensures Exceeds(file, cfg) ==> v.error == Some(TooLarge(cfg.maxSize.n))
    ensures !Exceeds(file, cfg) && file.mimetype !in cfg.allowed ==> v.error == Some(TypeNotAllowed(file.mimetype))
  {
    if Exceeds(file, cfg) then Validation(false, Some(TooLarge(cfg.maxSize.n)))
    else if file.mimetype !in cfg.allowed then Validation(false, Some(TypeNotAllowed(file.mimetype)))
    else Validation(true, None)
  }

  /** With the default configuration a file is accepted exactly when it has
      at most 10485760 bytes (so a file of exactly that size passes) and is a
      JPEG, PNG, WebP or PDF; one failing both checks reports its size. */
  lemma DefaultValidation(file: UploadedFile)
    ensures var v := ValidateFile(file, LoadConfig(None, None, None));
      && (v.valid <==> file.size <= 10485760 && file.mimetype in {"image/jpeg", "image/png", "image/webp", "application/pdf"})
      && (file.size > 10485760 ==> v.error == Some(TooLarge(10485760)))
  {
    DefaultConfig();
    ValidationUnder(file, LoadConfig(None, None, None));
  }

  lemma ValidationUnder(file: UploadedFile, cfg: Config)
    requires cfg.maxSize == Num(10485760)
    requires cfg.allowed == ["image/jpeg", "image/png", "image/webp", "application/pdf"]
    ensures var v := ValidateFile(file, cfg);
      && (v.valid <==> file.size <= 10485760 && file.mimetype in {"image/jpeg", "image/png", "image/webp", "application/pdf"})
      && (file.size > 10485760 ==> v.error == Some(TooLarge(10485760)))
  {
  }

  /** The error text, for a limit that is a whole number of MiB. */
  function Message(r: Rejection): string
    requires r.TooLarge? ==> r.max >= 0 && r.max % 1048576 == 0
  {
    match r
    case TooLarge(max) => "File size exceeds maximum allowed size of " + NatToString(max / 1048576) + "MB"
    case TypeNotAllowed(t) => "File type " + t + " is not allowed"
  }

  lemma DefaultSizeMessage()
    ensures Message(TooLarge(10485760)) == "File size exceeds maximum allowed size of 10MB"
  {
    assert 10485760 / 1048576 == 10;
    assert NatToString(10) == "10";
  }

  /** path.extname on a file name without '/': from the last '.' to the end,
      or "" when there is no '.', the only '.' starts the name, or the name is
      "..". */
  function Extname(name: string): (ext: string)
    ensures EndsWith(name, ext)
    ensures ext == "" || (ext[0] == '.' && '.' !in ext[1..])
    ensures '.' !in name ==> ext == ""
  {
    match LastIndexOf(name, '.')
    case None => ""
    case Some(d) => if d == 0 || name == ".." then "" else name[d..]
  }

  /** `${timestamp}-${randomStr}${ext}` */
  function SavedName(timestamp: nat, random: string, originalname: string): string {
    NatToString(timestamp) + "-" + random + Extname(originalname)
  }

  /** path.join of a directory and a plain file name. */
  function JoinPath(dir: string, name: string): string {
    dir + "/" + name
  }

  /** The path saveFile returns: relative to the storage root, under the
      subfolder when one is given. */
  function SavedPath(subfolder: Option<string>, timestamp: nat, random: string, originalname: string): (p: string)
    ensures EndsWith(p, Extname(originalname))
    ensures subfolder.Some? && subfolder.value != "" ==> StartsWith(p, subfolder.value + "/")
  {
    var name := SavedName(timestamp, random, originalname);
    var ext := Extname(originalname);
    assert name[|name| - |ext|..] == ext;
    if subfolder.Some? && subfolder.value != "" then
      var p := JoinPath(subfolder.value, name);
      assert p[|p| - |ext|..] == ext;
      assert p[..|subfolder.value + "/"|] == subfolder.value + "/";
      p
    else name
  }

  /** getFilePath: the stored path under the storage root. */
  function FilePath(cfg: Config, stored: string): string {
    JoinPath(cfg.root, stored)
  }
}
