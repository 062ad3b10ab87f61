/**
 The external commands the sync handler runs, the registry hosts and image
 references they name, and the shell command line each one is rendered to.
 */
module Commands {
  import opened Optional

  /** A `user:secret` credential pair passed inline to the copy tool. */
  datatype Creds = Creds(principal: string, secret: string)

  datatype Command =
      /** `aws ecr get-login-password`: prints a short-lived source-registry password. */
    | GetEcrPassword(region: string)
      /** `podman login` to the source registry with the password on stdin. */
    | LoginEcr(password: string, account: string, region: string)
      /** `podman login` to one destination registry with the configured token. */
    | LoginOcir(regionKey: string, tenancy: string, username: string, token: string)
      /** `skopeo copy` of one image, with both credentials given inline. */
    | SkopeoCopy(srcCreds: Creds, destCreds: Creds, src: SourceImage, dest: DestImage)

  /** An image `repo:tag` in the source registry of an account and region. */
  datatype SourceImage = SourceImage(account: string, region: string, repo: string, tag: string)

  /** An image `repo:tag` under a tenancy in the destination registry of a region key. */
  datatype DestImage = DestImage(regionKey: string, tenancy: string, repo: string, tag: string)

  /** The source registry host of an account in a region. */
  function EcrRegistry(account: string, region: string): string {
    account + ".dkr.ecr." + region + ".amazonaws.com"
  }

  /** The destination registry host of a region key. */
  function OcirRegistry(regionKey: string): string {
    regionKey + ".ocir.io"
  }

  /** The reference the copy tool is given for a source image. */
  function SourceRef(img: SourceImage): string {
    EcrRegistry(img.account, img.region) + "/" + img.repo + ":" + img.tag
  }

  /** The reference the copy tool is given for a destination image. */
  function DestRef(img: DestImage): string {
    OcirRegistry(img.regionKey) + "/" + img.tenancy + "/" + img.repo + ":" + img.tag
  }

  /** The shell command line the handler builds for `c`. */
  function CommandLine(c: Command): string {
    match c
    case GetEcrPassword(region) =>
      "aws ecr get-login-password --region " + region
    case LoginEcr(password, account, region) =>
      "echo " + password + " | podman login --username AWS --password-stdin " + EcrRegistry(account, region)
    case LoginOcir(regionKey, tenancy, username, token) =>
      "podman login " + OcirRegistry(regionKey) + " -u " + tenancy + "/" + username + " -p " + token
    case SkopeoCopy(srcCreds, destCreds, src, dest) =>
      "skopeo copy --src-creds " + srcCreds.principal + ":" + srcCreds.secret
      + " --dest-creds " + destCreds.principal + ":" + destCreds.secret + " "
      + "docker://" + SourceRef(src) + " docker://" + DestRef(dest)
  }

  /** `needle` occurs in `hay` starting at offset `k`. */
  predicate OccursAt(needle: string, hay: string, k: int) {
    0 <= k <= |hay| - |needle| && hay[k..k + |needle|] == needle
  }

  /** `needle` occurs in `hay` at some offset. */
  ghost predicate Occurs(needle: string, hay: string) {
    exists k :: OccursAt(needle, hay, k)
  }

  /** Every secret a command carries: what its command line would reveal if logged. */
  function Secrets(c: Command): (s: set<string>) {
    match c
    case GetEcrPassword(_) => {}
    case LoginEcr(password, _, _) => {password}
    case LoginOcir(_, _, _, token) => {token}
    case SkopeoCopy(src, dest, _, _) => {src.secret, dest.secret}
  }

  /**
   Each command line embeds every secret its command carries in plain text.
   The line is handed to a shell as it is, so the secrets appear in the
   process's arguments; they reach the log too once the log level is lowered
   to debug, since each command line is logged at that level before it runs.
   */
  lemma SecretsInCommandLine(c: Command, secret: string)
    requires secret in Secrets(c)
    ensures Occurs(secret, CommandLine(c))
  {
    match c
    case LoginEcr(password, account, region) =>
      PasswordInEcrLoginLine(password, account, region);
    case LoginOcir(regionKey, tenancy, username, token) =>
      TokenInOcirLoginLine(regionKey, tenancy, username, token);
    case SkopeoCopy(srcCreds, destCreds, src, dest) =>
      if secret == srcCreds.secret {
        SourceSecretInCopyLine(srcCreds, destCreds, src, dest);
      } else {
        DestSecretInCopyLine(srcCreds, destCreds, src, dest);
      }
  }

  lemma PasswordInEcrLoginLine(password: string, account: string, region: string)
    ensures Occurs(password, CommandLine(LoginEcr(password, account, region)))
  {
    var k := |"echo "|;
    OccursBetween("echo ", password, "");
    assert "echo " + password + "" == "echo " + password;
    var h := "echo " + password;
    OccursExtend(password, h, " | podman login --username AWS --password-stdin ", k);
    h := h + " | podman login --username AWS --password-stdin ";
    OccursExtend(password, h, EcrRegistry(account, region), k);
    h := h + EcrRegistry(account, region);
    assert h == CommandLine(LoginEcr(password, account, region));
  }

  lemma TokenInOcirLoginLine(regionKey: string, tenancy: string, username: string, token: string)
    ensures Occurs(token, CommandLine(LoginOcir(regionKey, tenancy, username, token)))
  {
    var pre := "podman login " + OcirRegistry(regionKey) + " -u " + tenancy + "/" + username + " -p ";
    OccursBetween(pre, token, "");
    assert pre + token + "" == CommandLine(LoginOcir(regionKey, tenancy, username, token));
  }

  lemma SourceSecretInCopyLine(srcCreds: Creds, destCreds: Creds, src: SourceImage, dest: DestImage)
    ensures Occurs(srcCreds.secret, CommandLine(SkopeoCopy(srcCreds, destCreds, src, dest)))
  {
    var pre := "skopeo copy --src-creds " + srcCreds.principal + ":";
    var k := |pre|;
    OccursBetween(pre, srcCreds.secret, "");
    assert pre + srcCreds.secret + "" == pre + srcCreds.secret;
    var h := pre + srcCreds.secret;
    OccursExtend(srcCreds.secret, h, " --dest-creds ", k);
    h := h + " --dest-creds ";
    OccursExtend(srcCreds.secret, h, destCreds.principal, k);
    h := h + destCreds.principal;
    OccursExtend(srcCreds.secret, h, ":", k);
    h := h + ":";
    OccursExtend(srcCreds.secret, h, destCreds.secret, k);
    h := h + destCreds.secret;
    OccursExtend(srcCreds.secret, h, " ", k);
    h := h + " ";
    OccursExtend(srcCreds.secret, h, "docker://", k);
    h := h + "docker://";
    OccursExtend(srcCreds.secret, h, SourceRef(src), k);
    h := h + SourceRef(src);
    OccursExtend(srcCreds.secret, h, " docker://", k);
    h := h + " docker://";
    OccursExtend(srcCreds.secret, h, DestRef(dest), k);
    h := h + DestRef(dest);
    assert h == CommandLine(SkopeoCopy(srcCreds, destCreds, src, dest));
  }

  lemma DestSecretInCopyLine(srcCreds: Creds, destCreds: Creds, src: SourceImage, dest: DestImage)
    ensures Occurs(destCreds.secret, CommandLine(SkopeoCopy(srcCreds, destCreds, src, dest)))
  {
    var pre := "skopeo copy --src-creds " + srcCreds.principal + ":" + srcCreds.secret + " --dest-creds " + destCreds.principal + ":";
    var k := |pre|;
    OccursBetween(pre, destCreds.secret, "");
    assert pre + destCreds.secret + "" == pre + destCreds.secret;
    var h := pre + destCreds.secret;
    OccursExtend(destCreds.secret, h, " ", k);
    h := h + " ";
    OccursExtend(destCreds.secret, h, "docker://", k);
    h := h + "docker://";
    OccursExtend(destCreds.secret, h, SourceRef(src), k);
    h := h + SourceRef(src);
    OccursExtend(destCreds.secret, h, " docker://", k);
    h := h + " docker://";
    OccursExtend(destCreds.secret, h, DestRef(dest), k);
    h := h + DestRef(dest);
    assert h == CommandLine(SkopeoCopy(srcCreds, destCreds, src, dest));
  }

  lemma OccursBetween(before: string, needle: string, after: string)
    ensures OccursAt(needle, before + needle + after, |before|)
  {
    var hay := before + needle + after;
    assert hay[|before|..|before| + |needle|] == needle;
  }

  /** An occurrence stays where it is when more text is appended. */
  lemma OccursExtend(needle: string, hay: string, more: string, k: int)
    requires OccursAt(needle, hay, k)
    ensures OccursAt(needle, hay + more, k)
  {
    assert (hay + more)[k..k + |needle|] == hay[k..k + |needle|];
  }

  /** An image reference split at its last colon into name and tag. */
  datatype ImageRef = ImageRef(name: string, tag: string)

  function Render(r: ImageRef): string {
    r.name + ":" + r.tag
  }

  /** The index of the last `:` in `s`, or -1 when there is none. */
  function LastColon(s: string): (k: int)
    ensures -1 <= k < |s|
    ensures k >= 0 ==> s[k] == ':'
    ensures forall m :: k < m < |s| ==> s[m] != ':'
  {
    if |s| == 0 then -1
    else if s[|s| - 1] == ':' then |s| - 1
    else LastColon(s[..|s| - 1])
  }

  /** Reads a reference back as name and tag; None when it has no colon. */
  function Parse(s: string): (r: Option<ImageRef>)
    ensures r.Some? ==> Render(r.value) == s && ':' !in r.value.tag
    ensures r.None? ==> ':' !in s
  {
    var k := LastColon(s);
    if k < 0 then None
    else
      assert s == s[..k] + ":" + s[k + 1..];
      Some(ImageRef(s[..k], s[k + 1..]))
  }

  /** Parse inverts Render for every tag without a colon (image tags never hold one). */
  lemma ParseRender(r: ImageRef)
    requires ':' !in r.tag
    ensures Parse(Render(r)) == Some(r)
  {
    var s := Render(r);
    var k := LastColon(s);
    assert s[|r.name|] == ':';
    forall m | |r.name| < m < |s| ensures s[m] != ':' {
      assert s[m] == r.tag[m - |r.name| - 1];
    }
    assert k == |r.name|;
    assert s[..k] == r.name && s[k + 1..] == r.tag;
  }
}
