/**
 * The deployable project built around generated code and the parts of a Vercel
 * deployment that are decided locally (lib/vercel-deploy.ts): the file lists,
 * their base 64 encoding, the project name, the missing-token error and the
 * choice of the reported URL. The deployment request itself is not sent: the
 * API's answer is a parameter.
 */
module VercelDeploy {
  import opened Common
  import opened Strings
  import Utf8
  import Base64

  /** An outcome that is either a value or a thrown `Error` with its message. */
  datatype Result<T> = Success(value: T) | Failure(message: string)

  // The fixed files of the starter project, verbatim.

  const PackageJson: string :=
    "{\n" +
    "  \"name\": \"comets-deploy\",\n" +
    "  \"version\": \"0.1.0\",\n" +
    "  \"private\": true,\n" +
    "  \"scripts\": {\n" +
    "    \"dev\": \"next dev\",\n" +
    "    \"build\": \"next build\",\n" +
    "    \"start\": \"next start\"\n" +
    "  },\n" +
    "  \"dependencies\": {\n" +
    "    \"next\": \"15.0.0\",\n" +
    "    \"react\": \"^18.2.0\",\n" +
    "    \"react-dom\": \"^18.2.0\"\n" +
    "  },\n" +
    "  \"devDependencies\": {\n" +
    "    \"@types/node\": \"^20\",\n" +
    "    \"@types/react\": \"^18\",\n" +
    "    \"@types/react-dom\": \"^18\",\n" +
    "    \"autoprefixer\": \"^10.4.16\",\n" +
    "    \"postcss\": \"^8.4.32\",\n" +
    "    \"tailwindcss\": \"^3.4.0\",\n" +
    "    \"typescript\": \"^5\"\n" +
    "  }\n" +
    "}"

  const NextConfig: string :=
    "/** @type {import('next').NextConfig} */\n" +
    "const nextConfig = { reactStrictMode: true };\n" +
    "module.exports = nextConfig;"

  const PostcssConfig: string :=
    "module.exports = {\n" +
    "  plugins: { tailwindcss: {}, autoprefixer: {} },\n" +
    "};"

  const TailwindConfig: string :=
    "/** @type {import('tailwindcss').Config} */\n" +
    "module.exports = {\n" +
    "  content: ['./app/**/*.{js,ts,jsx,tsx}', './components/**/*.{js,ts,jsx,tsx}'],\n" +
    "  theme: { extend: {} },\n" +
    "  plugins: [],\n" +
    "};"

  const Layout: string :=
    "import './globals.css';\n" +
    "export default function RootLayout({ children }: { children: React.ReactNode }) {\n" +
    "  return (\n" +
    "    <html lang=\"en\">\n" +
    "      <body className=\"min-h-screen bg-slate-50\">{children}</body>\n" +
    "    </html>\n" +
    "  );\n" +
    "}"

  const GlobalsCss: string :=
    "@tailwind base;\n" +
    "@tailwind components;\n" +
    "@tailwind utilities;"

  const TsConfig: string :=
    "{\n" +
    "  \"compilerOptions\": {\n" +
    "    \"target\": \"ES2017\",\n" +
    "    \"lib\": [\n" +
    "      \"dom\",\n" +
    "      \"dom.iterable\",\n" +
    "      \"esnext\"\n" +
    "    ],\n" +
    "    \"allowJs\": true,\n" +
    "    \"skipLibCheck\": true,\n" +
    "    \"strict\": true,\n" +
    "    \"noEmit\": true,\n" +
    "    \"esModuleInterop\": true,\n" +
    "    \"module\": \"esnext\",\n" +
    "    \"moduleResolution\": \"bundler\",\n" +
    "    \"resolveJsonModule\": true,\n" +
    "    \"isolatedModules\": true,\n" +
    "    \"jsx\": \"preserve\",\n" +
    "    \"incremental\": true,\n" +
    "    \"plugins\": [\n" +
    "      {\n" +
    "        \"name\": \"next\"\n" +
    "      }\n" +
    "    ],\n" +
    "    \"paths\": {\n" +
    "      \"@/*\": [\n" +
    "        \"./*\"\n" +
    "      ]\n" +
    "    }\n" +
    "  },\n" +
    "  \"include\": [\n" +
    "    \"next-env.d.ts\",\n" +
    "    \"**/*.ts\",\n" +
    "    \"**/*.tsx\",\n" +
    "    \".next/types/**/*.ts\"\n" +
    "  ],\n" +
    "  \"exclude\": [\n" +
    "    \"node_modules\"\n" +
    "  ]\n" +
    "}"

  const ReplitConfig: string :=
    "run = \"npm run dev\"\n" +
    "entrypoint = \"app/page.tsx\"\n" +
    "modules = [\"nodejs-22\"]\n" +
    "\n" +
    "[nix]\n" +
    "channel = \"stable-24_11\"\n" +
    "\n" +
    "[deployment]\n" +
    "build = [\"npm\", \"run\", \"build\"]\n" +
    "run = [\"npm\", \"run\", \"start\"]\n" +
    "deploymentTarget = \"cloudrun\"\n" +
    "\n" +
    "[[ports]]\n" +
    "localPort = 3000\n" +
    "externalPort = 80\n"

  const PageFile: string := "app/page.tsx"
  const ReplitFile: string := ".replit"
  const Base64Encoding: string := "base64"

  /** A file with its text, as written to a ZIP export. */
  datatype RawFile = RawFile(file: string, content: string)

  /** A file as the deployment API receives it. */
  datatype EncodedFile = EncodedFile(file: string, data: string, encoding: string)

  /** `buildProjectFilesRaw(code)`: the starter project with `code` as its page. */
  function BuildProjectFilesRaw(code: string): (r: seq<RawFile>)
    ensures |r| == 9
    ensures r[5] == RawFile(PageFile, code)
  {
    [ RawFile("package.json", PackageJson),
      RawFile("next.config.js", NextConfig),
      RawFile("postcss.config.js", PostcssConfig),
      RawFile("tailwind.config.js", TailwindConfig),
      RawFile("app/layout.tsx", Layout),
      RawFile(PageFile, code),
      RawFile("app/globals.css", GlobalsCss),
      RawFile("tsconfig.json", TsConfig),
      RawFile(ReplitFile, ReplitConfig) ]
  }

  /** Only the page depends on the code: every other entry is the same for all inputs. */
  lemma RawOnlyPageVaries(code1: string, code2: string, i: nat)
    requires i < 9 && i != 5
    ensures BuildProjectFilesRaw(code1)[i] == BuildProjectFilesRaw(code2)[i]
  {
  }

  /** The text of a base 64 payload of UTF-8, when it is one. */
  function DecodeText(data: string): Option<string> {
    match Base64.Decode(data)
    case None => None
    case Some(bytes) => Utf8.Decode(bytes)
  }

  /** An encoded entry carries a raw one: same name, base 64 marked, text recoverable. */
  predicate Carries(e: EncodedFile, f: RawFile) {
    e.file == f.file && e.encoding == Base64Encoding && DecodeText(e.data) == Some(f.content)
  }

  /** `({ file, content }) => ({ file, data: toBase64(content), encoding: 'base64' })`. */
  function Encoded(f: RawFile): (e: EncodedFile)
    ensures Carries(e, f)
  {
    Base64.ToBase64Decodes(f.content);
    EncodedFile(f.file, Base64.ToBase64(f.content), Base64Encoding)
  }

  /** The same mapping over a whole list. */
  function EncodeAll(files: seq<RawFile>): (r: seq<EncodedFile>)
    ensures |r| == |files|
    ensures forall i :: 0 <= i < |r| ==> Carries(r[i], files[i])
  {
    seq(|files|, i requires 0 <= i < |files| => Encoded(files[i]))
  }

  /** `buildProjectFiles(code)`: the raw list for the trimmed code, each file encoded. */
  function BuildProjectFiles(code: string): (r: seq<EncodedFile>)
    ensures |r| == 9
    ensures forall i :: 0 <= i < 9 ==> Carries(r[i], BuildProjectFilesRaw(Trim(code))[i])
  {
    EncodeAll(BuildProjectFilesRaw(Trim(code)))
  }

  /** The deployed page is the trimmed code, recoverable from its payload. */
  lemma PageIsTrimmedCode(code: string)
    ensures BuildProjectFiles(code)[5].file == PageFile
    ensures DecodeText(BuildProjectFiles(code)[5].data) == Some(Trim(code))
  {
    assert Carries(BuildProjectFiles(code)[5], BuildProjectFilesRaw(Trim(code))[5]);
  }

  /** A template's files in `Object.entries` order: path and text. */
  type Entries = seq<(string, string)>

  function Keys(e: Entries): (ks: seq<string>)
    ensures |ks| == |e|
    ensures forall i :: 0 <= i < |e| ==> ks[i] == e[i].0
  {
    if e == [] then [] else [e[0].0] + Keys(e[1..])
  }

  predicate DistinctKeys(e: Entries) {
    forall i, j :: 0 <= i < j < |e| ==> e[i].0 != e[j].0
  }

  /** The value an object built from these entries holds at a key. */
  function Lookup(e: Entries, key: string): Option<string> {
    if e == [] then None
    else if e[0].0 == key then Some(e[0].1)
    else Lookup(e[1..], key)
  }

  /**
   * `{ ...files, '.replit': REPLIT_CONFIG }`: an existing `.replit` keeps its
   * place and takes the fixed value, otherwise the entry is added last.
   */
  function WithReplit(files: Entries): (r: Entries)
    ensures |r| == |files| || |r| == |files| + 1
  {
    if files == [] then [(ReplitFile, ReplitConfig)]
    else if files[0].0 == ReplitFile then [(ReplitFile, ReplitConfig)] + files[1..]
    else [files[0]] + WithReplit(files[1..])
  }

  /** The spread keeps every template file and forces the `.replit` value. */
  lemma {:induction false} WithReplitSpec(files: Entries)
    requires DistinctKeys(files)
    ensures DistinctKeys(WithReplit(files))
    ensures Lookup(WithReplit(files), ReplitFile) == Some(ReplitConfig)
    ensures forall k :: k != ReplitFile ==> Lookup(WithReplit(files), k) == Lookup(files, k)
    ensures ReplitFile in Keys(files) ==> Keys(WithReplit(files)) == Keys(files)
    ensures ReplitFile !in Keys(files) ==> Keys(WithReplit(files)) == Keys(files) + [ReplitFile]
  {
    if files == [] {
    } else if files[0].0 == ReplitFile {
      var r := WithReplit(files);
      assert Keys(r) == Keys(files);
      forall k | k != ReplitFile
        ensures Lookup(r, k) == Lookup(files, k)
      {
        assert r[1..] == files[1..];
      }
    } else {
      var rest := WithReplit(files[1..]);
      var r := [files[0]] + rest;
      assert DistinctKeys(files[1..]);
      WithReplitSpec(files[1..]);
      assert r[1..] == rest;
      assert files[0].0 !in Keys(files[1..]);
      assert files[0].0 !in Keys(rest);
      assert Keys(r) == [files[0].0] + Keys(rest);
      assert Keys(files) == [files[0].0] + Keys(files[1..]);
    }
  }

  function Raw(e: Entries): (r: seq<RawFile>)
    ensures |r| == |e|
    ensures forall i :: 0 <= i < |e| ==> r[i] == RawFile(e[i].0, e[i].1)
  {
    if e == [] then [] else [RawFile(e[0].0, e[0].1)] + Raw(e[1..])
  }

  /** `buildProjectFilesRawFromTemplate(files)`. */
  function BuildProjectFilesRawFromTemplate(files: Entries): seq<RawFile> {
    Raw(WithReplit(files))
  }

  /** `buildProjectFilesFromTemplate(files)`. */
  function BuildProjectFilesFromTemplate(files: Entries): seq<EncodedFile> {
    EncodeAll(Raw(WithReplit(files)))
  }

  /**
   * The template export lists every template file with its own text, except that
   * `.replit` always holds the fixed configuration; each path appears once.
   */
  lemma TemplateExport(files: Entries, i: nat)
    requires DistinctKeys(files)
    requires i < |BuildProjectFilesRawFromTemplate(files)|
    ensures var f := BuildProjectFilesRawFromTemplate(files)[i];
      (f.file == ReplitFile ==> f.content == ReplitConfig)
      && (f.file != ReplitFile ==> Lookup(files, f.file) == Some(f.content))
      && forall j :: 0 <= j < |BuildProjectFilesRawFromTemplate(files)| && j != i ==>
           BuildProjectFilesRawFromTemplate(files)[j].file != f.file
  {
    var w := WithReplit(files);
    WithReplitSpec(files);
    LookupDistinct(w, i);
  }

  /** In entries with distinct keys, looking up an entry's key finds that entry. */
  lemma {:induction false} LookupDistinct(e: Entries, i: nat)
    requires DistinctKeys(e) && i < |e|
    ensures Lookup(e, e[i].0) == Some(e[i].1)
  {
    if i > 0 {
      assert DistinctKeys(e[1..]);
      LookupDistinct(e[1..], i - 1);
    }
  }

  /** The deployed template list has the export's names in the same order, each encoded. */
  lemma TemplateDeployMatchesExport(files: Entries)
    ensures |BuildProjectFilesFromTemplate(files)| == |BuildProjectFilesRawFromTemplate(files)|
    ensures forall i :: 0 <= i < |BuildProjectFilesFromTemplate(files)| ==>
      Carries(BuildProjectFilesFromTemplate(files)[i], BuildProjectFilesRawFromTemplate(files)[i])
  {
  }

  const MissingTokenMessage: string := "VERCEL_TOKEN is not set. Add it to your .env file."

  /** What is posted to the deployments endpoint. */
  datatype DeployRequest = DeployRequest(authorization: string, name: string, files: seq<EncodedFile>)

  /** `projectName || \`comets-${Date.now().toString(36)}\``. */
  function ProjectName(projectName: Option<string>, now: nat): (name: string)
    ensures projectName.Some? && projectName.value != "" ==> name == projectName.value
    ensures (projectName.None? || projectName.value == "") ==>
      StartsWith(name, "comets-") && FromRadix(name[7..], 36) == now
  {
    if projectName.Some? && projectName.value != "" then projectName.value
    else
      FromToRadix(now, 36);
      var generated := "comets-" + ToRadix(now, 36);
      assert generated[7..] == ToRadix(now, 36);
      generated
  }

  /** The checks `deployToVercelFromFiles` makes before its request. */
  function PrepareDeployment(files: seq<EncodedFile>, token: Option<string>, projectName: Option<string>,
                             now: nat): (r: Result<DeployRequest>)
    ensures r.Failure? <==> token.None? || token.value == ""
    ensures r.Failure? ==> r.message == MissingTokenMessage
    ensures r.Success? ==>
      StartsWith(r.value.authorization, "Bearer ") && r.value.authorization[7..] == token.value
      && r.value.files == files && r.value.name == ProjectName(projectName, now)
  {
    if token.None? || token.value == "" then Failure(MissingTokenMessage)
    else
      var auth := "Bearer " + token.value;
      assert auth[7..] == token.value;
      Success(DeployRequest(auth, ProjectName(projectName, now), files))
  }

  /** The fields of the API's JSON answer that the deployer reads. */
  datatype VercelResponse = VercelResponse(
    ok: bool,
    httpStatus: int,
    errorMessage: Option<string>,
    url: Option<string>,
    alias: seq<string>,
    name: string,
    id: string,
    readyState: Option<string>,
    status: Option<string>)

  datatype DeployResult = DeployResult(url: string, id: string, status: Option<string>)

  /** A JavaScript truthy string. */
  predicate Truthy(s: Option<string>) {
    s.Some? && s.value != ""
  }

  /** The reported URL: first alias, else the deployment URL, else the project's default domain. */
  function DeploymentUrl(url: Option<string>, alias: seq<string>, name: string): (u: string)
    ensures StartsWith(u, "http")
  {
    if |alias| > 0 && alias[0] != "" then "https://" + alias[0]
    else if Truthy(url) && StartsWith(url.value, "http") then url.value
    else if Truthy(url) then "https://" + url.value
    else "https://" + name + ".vercel.app"
  }

  /** The URL follows the fixed priority and never drops the host it was given. */
  lemma UrlChoice(url: Option<string>, alias: seq<string>, name: string)
    ensures |alias| > 0 && alias[0] != "" ==> DeploymentUrl(url, alias, name) == "https://" + alias[0]
    ensures (|alias| == 0 || alias[0] == "") && Truthy(url) && StartsWith(url.value, "http") ==>
      DeploymentUrl(url, alias, name) == url.value
    ensures (|alias| == 0 || alias[0] == "") && Truthy(url) && !StartsWith(url.value, "http") ==>
      DeploymentUrl(url, alias, name) == "https://" + url.value
    ensures (|alias| == 0 || alias[0] == "") && !Truthy(url) ==>
      DeploymentUrl(url, alias, name) == "https://" + name + ".vercel.app"
  {
  }

  /** The deployer's reading of the API's answer. */
  function ReadDeployment(response: VercelResponse): (r: Result<DeployResult>)
    ensures r.Failure? <==> !response.ok
    ensures !response.ok && Truthy(response.errorMessage) ==> r.message == response.errorMessage.value
    ensures !response.ok && !Truthy(response.errorMessage) ==>
      r.message == "Vercel API error: " + IntToString(response.httpStatus)
    ensures r.Success? ==> StartsWith(r.value.url, "http") && r.value.id == response.id
  {
    if !response.ok then
      if Truthy(response.errorMessage) then Failure(response.errorMessage.value)
      else Failure("Vercel API error: " + IntToString(response.httpStatus))
    else
      Success(DeployResult(
        DeploymentUrl(response.url, response.alias, response.name),
        response.id,
        if Truthy(response.readyState) then response.readyState else response.status))
  }

  /** `deployToVercelFromFiles`, with the API's answer given. */
  function DeployFiles(files: seq<EncodedFile>, token: Option<string>, projectName: Option<string>,
                       now: nat, response: VercelResponse): (r: Result<DeployResult>)
    ensures (token.None? || token.value == "") ==> r == Failure(MissingTokenMessage)
  {
    match PrepareDeployment(files, token, projectName, now)
    case Failure(message) => Failure(message)
    case Success(_) => ReadDeployment(response)
  }

  /** `deployToVercel(code, projectName)`. */
  function DeployToVercel(code: string, token: Option<string>, projectName: Option<string>,
                          now: nat, response: VercelResponse): Result<DeployResult> {
    DeployFiles(BuildProjectFiles(code), token, projectName, now, response)
  }

  /** `deployToVercelFromTemplate(templateFiles, projectName)`. */
  function DeployToVercelFromTemplate(templateFiles: Entries, token: Option<string>, projectName: Option<string>,
                                      now: nat, response: VercelResponse): Result<DeployResult> {
    DeployFiles(BuildProjectFilesFromTemplate(templateFiles), token, projectName, now, response)
  }

  /** The request built by a code deployment carries the trimmed code as its page. */
  lemma DeployedPage(code: string, token: Option<string>, projectName: Option<string>, now: nat)
    requires token.Some? && token.value != ""
    ensures var r := PrepareDeployment(BuildProjectFiles(code), token, projectName, now);
      r.Success? && DecodeText(r.value.files[5].data) == Some(Trim(code))
  {
    PageIsTrimmedCode(code);
  }
}
