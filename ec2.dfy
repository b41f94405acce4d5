/** Image lookup and creation over EC2 (raduga/aws/ec2.py). The image store is modelled
    by the images and instances it holds; DescribeImages is modelled by `GetAllImages`. */
module Ec2 {
  import opened Wrappers
  import opened Strings
  import opened Filters

  datatype Image = Image(id: string, ownerId: string, name: string, description: string,
                         state: string, tags: map<string, string>)

  /** The image carries every (key, value) pair of `tags`. */
  predicate HasTags(img: Image, tags: map<string, string>)
  {
    forall k | k in tags :: k in img.tags && img.tags[k] == tags[k]
  }

  /** `dict(map(lambda (k, v): ("tag:" + k, v), tags.items()))` */
  function TagFilters(tags: map<string, string>): (f: map<string, string>)
    ensures forall k :: k in tags <==> "tag:" + k in f
    ensures forall k | k in tags :: f["tag:" + k] == tags[k]
    ensures forall name | name in f :: StartsWith(name, "tag:") && name[4..] in tags && f[name] == tags[name[4..]]
  {
    assert forall k | k in tags :: ("tag:" + k)[4..] == k;
    map k | k in tags :: "tag:" + k := tags[k]
  }

  /** One DescribeImages filter: `tag:K` with value V holds of an image tagged K = V.
      Filters of other names are not modelled and hold of no image. */
  predicate FilterHolds(img: Image, name: string, value: string)
  {
    StartsWith(name, "tag:") && name[4..] in img.tags && img.tags[name[4..]] == value
  }

  /** The `owners` criterion: an owner id, or `self` for the caller's own account. */
  predicate OwnedBy(account: string, img: Image, owners: seq<string>)
  {
    exists o | o in owners :: img.ownerId == (if o == "self" then account else o)
  }

  predicate Selected(account: string, img: Image, owners: seq<string>, filters: map<string, string>)
  {
    OwnedBy(account, img, owners) && forall name | name in filters :: FilterHolds(img, name, filters[name])
  }

  /** `get_all_images(owners=..., filters=...)`: the selected images, in store order. */
  function GetAllImages(account: string, images: seq<Image>, owners: seq<string>,
                        filters: map<string, string>): (r: seq<Image>)
    ensures |r| <= |images|
    ensures forall img | img in r :: img in images && Selected(account, img, owners, filters)
  {
    Keep(images, img => Selected(account, img, owners, filters))
  }

  /** `find_ami(**tags)` */
  function FindAmi(account: string, images: seq<Image>, tags: map<string, string>): Result<Option<string>>
  {
    var results := GetAllImages(account, images, ["self"], TagFilters(tags));
    if |results| == 0 then Ok(None)
    else if |results| == 1 then Ok(Some(results[0].id))
    else Err(RuntimeError("More than ona AMI is matching the requested tags (??!)"))
  }

  /** The image `find_ami` looks for: one of the caller's own, carrying the tags. */
  predicate Wanted(account: string, img: Image, tags: map<string, string>)
  {
    img.ownerId == account && HasTags(img, tags)
  }

  /** The query `find_ami` builds selects exactly the caller's images that carry the tags. */
  lemma SelectedByTags(account: string, img: Image, tags: map<string, string>)
    ensures Selected(account, img, ["self"], TagFilters(tags)) <==> Wanted(account, img, tags)
  {
    var f := TagFilters(tags);
    if Wanted(account, img, tags) {
      assert OwnedBy(account, img, ["self"]) by { assert "self" in ["self"]; }
    }
    if Selected(account, img, ["self"], f) {
      forall k | k in tags ensures k in img.tags && img.tags[k] == tags[k] {
        assert FilterHolds(img, "tag:" + k, f["tag:" + k]);
        assert ("tag:" + k)[4..] == k;
      }
      var o :| o in ["self"] && img.ownerId == (if o == "self" then account else o);
    }
  }

  /** What the number of results says about the store. */
  lemma CountResults(account: string, images: seq<Image>, tags: map<string, string>)
    ensures var r := GetAllImages(account, images, ["self"], TagFilters(tags));
            && (|r| == 0 <==> forall i | 0 <= i < |images| :: !Wanted(account, images[i], tags))
            && (|r| >= 2 <==> exists i, j | 0 <= i < j < |images| :: Wanted(account, images[i], tags) && Wanted(account, images[j], tags))
            && (|r| == 1 ==> exists i | 0 <= i < |images| :: Wanted(account, images[i], tags) && r[0] == images[i]
                               && forall j | 0 <= j < |images| && j != i :: !Wanted(account, images[j], tags))
  {
    var f := TagFilters(tags);
    var p := img => Selected(account, img, ["self"], f);
    forall i | 0 <= i < |images| ensures p(images[i]) <==> Wanted(account, images[i], tags) {
      SelectedByTags(account, images[i], tags);
    }
    KeepNone(images, p);
    KeepMany(images, p);
    KeepOne(images, p);
  }

  /** `find_ami` returns nothing when no own image carries the tags, the id of the only one
      when there is exactly one, and fails when there are several. */
  lemma FindAmiCases(account: string, images: seq<Image>, tags: map<string, string>)
    ensures FindAmi(account, images, tags) == Ok(None) <==>
              forall i | 0 <= i < |images| :: !Wanted(account, images[i], tags)
    ensures FindAmi(account, images, tags).Err? <==>
              exists i, j | 0 <= i < j < |images| :: Wanted(account, images[i], tags) && Wanted(account, images[j], tags)
    ensures forall id :: FindAmi(account, images, tags) == Ok(Some(id)) ==>
              exists i | 0 <= i < |images| :: Wanted(account, images[i], tags) && images[i].id == id
                && forall j | 0 <= j < |images| && j != i :: !Wanted(account, images[j], tags)
  {
    CountResults(account, images, tags);
  }

  /** An image made by `create_ami` is what `find_ami` then finds for its tags, when no
      other image of the account carries them. */
  lemma FindAfterCreate(account: string, images: seq<Image>, img: Image, tags: map<string, string>)
    requires forall i | 0 <= i < |images| :: !Wanted(account, images[i], tags)
    requires img.ownerId == account && img.tags == tags
    ensures FindAmi(account, images + [img], tags) == Ok(Some(img.id))
  {
    var all := images + [img];
    assert forall i | 0 <= i < |images| :: all[i] == images[i];
    assert Wanted(account, all[|images|], tags);
    FindAmiCases(account, all, tags);
    CountResults(account, all, tags);
  }

  /** `AWSEC2`: the image store as far as this program touches it. */
  class AWSEC2 {
    /** The account `owners=['self']` stands for. */
    const account: string
    var images: seq<Image>
    /** The state of each instance, by instance id. */
    var instances: map<string, string>

    constructor (account: string, images: seq<Image>, instances: map<string, string>)
      ensures this.account == account && this.images == images && this.instances == instances
    {
      this.account := account;
      this.images := images;
      this.instances := instances;
    }

    /** `create_ami`: only a stopped instance is imaged. DescribeInstances answers an id
        the service does not know with `InvalidInstanceID.NotFound`, raised by boto as a
        server error. The new image, with the id the service assigns (`newId`), is created
        untagged and then given `tags`. */
    method CreateAmi(instanceId: string, name: string, description: string,
                     tags: map<string, string>, newId: string) returns (r: Result<string>)
      modifies this
      ensures instances == old(instances)
      ensures instanceId !in instances ==> r == Err(ServerError("InvalidInstanceID.NotFound")) && images == old(images)
      ensures instanceId in instances && instances[instanceId] != "stopped" ==>
                r == Err(RuntimeError("Won't create AMI from non-stopped instance")) && images == old(images)
      ensures instanceId in instances && instances[instanceId] == "stopped" ==>
                r == Ok(newId) && images == old(images) + [Image(newId, account, name, description, "pending", tags)]
    {
      if instanceId !in instances {
        return Err(ServerError("InvalidInstanceID.NotFound"));
      }
      if instances[instanceId] != "stopped" {
        return Err(RuntimeError("Won't create AMI from non-stopped instance"));
      }
      images := images + [Image(newId, account, name, description, "pending", map[])];
      var last := |images| - 1;
      assert images[last].tags + tags == tags;
      images := images[last := images[last].(tags := images[last].tags + tags)];
      r := Ok(newId);
    }
  }
}
