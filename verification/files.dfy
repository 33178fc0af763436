/** Uploading a file to the object store: the object key is a fresh unique
    identifier joined to the original file name, optionally under a folder,
    and the public URL is the store endpoint, bucket and key. The unique
    identifier and the store's answer are parameters. */
module Files {
  import opened Wrappers
  import opened Errors
  import opened Bytes

  /** An uploaded file: its client-side name and its bytes. */
  datatype Upload = Upload(filename: string, content: seq<byte>)

  /** How the object store answered the write. */
  datatype PutOutcome = Stored | ClientError(message: string)

  /** The bucket's objects after the call and the call's answer. */
  datatype Saved = Saved(objects: map<string, seq<byte>>, url: Result<string, Error>)

  const UploadFailed: string := "Error uploading file to S3: "

  /** The object key: `uuid_name`, under `folder/` when a folder is given. */
  function ObjectKey(folder: string, uuid: string, fileName: string): (key: string)
    ensures |key| == (if folder == "" then 0 else |folder| + 1) + |uuid| + 1 + |fileName|
    ensures key[|key| - |fileName| - 1..] == "_" + fileName
    ensures key[|key| - |fileName| - |uuid| - 1..|key| - |fileName| - 1] == uuid
    ensures folder != "" ==> key[..|folder| + 1] == folder + "/"
    ensures folder == "" ==> key[..|uuid|] == uuid
  {
    var unique := uuid + "_" + fileName;
    if folder != "" then folder + "/" + unique else unique
  }

  /** The public URL of `key` in `bucket`. */
  function PublicUrl(endpoint: string, bucket: string, key: string): (url: string)
    ensures |url| == |endpoint| + |bucket| + 2 + |key|
    ensures url[..|endpoint| + |bucket| + 2] == endpoint + "/" + bucket + "/"
    ensures url[|endpoint| + |bucket| + 2..] == key
  {
    endpoint + "/" + bucket + "/" + key
  }

  /** `save_file`: write the bytes under a fresh key and return the key's
      public URL; a store failure leaves the bucket as it was and yields 500. */
  function SaveFile(objects: map<string, seq<byte>>, content: seq<byte>, fileName: string, folder: string,
                    uuid: string, endpoint: string, bucket: string, put: PutOutcome): (r: Saved)
    ensures put.ClientError? ==>
      r.objects == objects && r.url == Failure(HttpError(InternalServerError, UploadFailed + put.message))
    ensures put.Stored? ==>
      var key := ObjectKey(folder, uuid, fileName);
      && r.url == Success(PublicUrl(endpoint, bucket, key))
      && key in r.objects && r.objects[key] == content
      && forall k :: k != key ==> (k in r.objects <==> k in objects) && (k in objects ==> r.objects[k] == objects[k])
  {
    var key := ObjectKey(folder, uuid, fileName);
    match put
    case Stored => Saved(objects[key := content], Success(PublicUrl(endpoint, bucket, key)))
    case ClientError(message) => Saved(objects, Failure(HttpError(InternalServerError, UploadFailed + message)))
  }

  /** `upload_file`: save the upload's bytes under its own name, at the top of
      the bucket unless a folder is given. */
  function UploadFile(objects: map<string, seq<byte>>, file: Upload, folder: string,
                      uuid: string, endpoint: string, bucket: string, put: PutOutcome): (r: Saved)
    ensures put.Stored? ==>
      var key := ObjectKey(folder, uuid, file.filename);
      && r.url == Success(PublicUrl(endpoint, bucket, key))
      && key in r.objects && r.objects[key] == file.content
      && forall k :: k != key ==> (k in r.objects <==> k in objects) && (k in objects ==> r.objects[k] == objects[k])
    ensures put.ClientError? ==>
      r.objects == objects && r.url == Failure(HttpError(InternalServerError, UploadFailed + put.message))
  {
    SaveFile(objects, file.content, file.filename, folder, uuid, endpoint, bucket, put)
  }

  /** Two uploads of the same name into the same folder get different keys
      whenever their identifiers differ. */
  lemma DistinctIdentifiersDistinctKeys(folder: string, u1: string, u2: string, fileName: string)
    requires u1 != u2
    ensures ObjectKey(folder, u1, fileName) != ObjectKey(folder, u2, fileName)
  {
    var k1, k2 := ObjectKey(folder, u1, fileName), ObjectKey(folder, u2, fileName);
    if |u1| == |u2| {
      assert k1[|k1| - |fileName| - |u1| - 1..|k1| - |fileName| - 1] == u1;
      assert k2[|k2| - |fileName| - |u2| - 1..|k2| - |fileName| - 1] == u2;
    } else {
      assert |k1| != |k2|;
    }
  }

  /** The URL handed back names exactly the object that was written: cutting
      the endpoint and bucket off it leaves a key the bucket now holds, with
      the uploaded bytes, ending in the original file name. */
  lemma SavedUrlNamesStoredObject(objects: map<string, seq<byte>>, content: seq<byte>, fileName: string, folder: string,
                                  uuid: string, endpoint: string, bucket: string)
    ensures var r := SaveFile(objects, content, fileName, folder, uuid, endpoint, bucket, Stored);
      && r.url.Success?
      && |r.url.value| >= |endpoint| + |bucket| + 2
      && var key := r.url.value[|endpoint| + |bucket| + 2..];
      && key in r.objects && r.objects[key] == content
      && |key| > |fileName| && key[|key| - |fileName| - 1..] == "_" + fileName
  {
  }

  /** Without a folder, the key splits back into the identifier and the name. */
  lemma TopLevelKeySplits(uuid: string, fileName: string)
    ensures var key := ObjectKey("", uuid, fileName);
      key[..|uuid|] == uuid && key[|uuid|] == '_' && key[|uuid| + 1..] == fileName
  {
  }
}
